/** Two-way settings sync between a viewer and a widget model that echo each other's changes. */
module Reconciler {
  import opened Common
  import opened Json

  /** An absent key is `undefined`. */
  type Settings = map<string, Json>

  const ATTRIBUTES: seq<string> := [
    "plugin", "columns", "columns_config", "group_by", "split_by", "group_rollup_mode",
    "split_rollup_mode", "aggregates", "sort", "filter", "expressions", "plugin_config",
    "settings", "theme", "title", "version"]

  const STRING_ATTRIBUTES: set<string> :=
    {"plugin", "theme", "title", "version", "group_rollup_mode", "split_rollup_mode"}

  /** `JSON.parse`; `None` is a syntax error. */
  type Parser = string -> Option<Json>

  ghost predicate AllWellFormed(m: Settings) {
    forall k :: k in m ==> WellFormed(m[k])
  }

  // ----- Normalising what the viewer saves -----

  function NormalValue(parse: Parser, name: string, raw: Json): Option<Json> {
    var parsed := if raw.JStr? && raw.s != "" && name !in STRING_ATTRIBUTES then parse(raw.s) else Some(raw);
    if parsed == Some(JNull) && name == "plugin_config" then Some(JObj([])) else parsed
  }

  predicate Normalises(names: seq<string>, parse: Parser, raw: Settings) {
    forall name :: name in names && name in raw ==> NormalValue(parse, name, raw[name]).Some?
  }

  function NormalSettings(names: seq<string>, parse: Parser, raw: Settings): (c: Settings)
    requires Normalises(names, parse, raw)
    ensures forall name :: name in c <==> name in names && name in raw
  {
    map name | name in raw && name in names :: NormalValue(parse, name, raw[name]).value
  }

  /** Builds the normalised settings one attribute at a time; a syntax error is an exception. */
  method NormalizeConfig(names: seq<string>, parse: Parser, raw: Settings) returns (r: Option<Settings>)
    ensures r.Some? <==> Normalises(names, parse, raw)
    ensures r.Some? ==> r.value == NormalSettings(names, parse, raw)
  {
    var config: Settings := map[];
    for i := 0 to |names|
      invariant forall name :: name in config <==> name in names[..i] && name in raw
      invariant forall name :: name in names[..i] && name in raw ==>
                  NormalValue(parse, name, raw[name]) == Some(config[name])
    {
      var name := names[i];
      assert names[..i + 1] == names[..i] + [name];
      if name !in raw { continue; }
      var value := raw[name];
      if value.JStr? && value.s != "" && name !in STRING_ATTRIBUTES {
        var parsed := parse(value.s);
        if parsed == None {
          assert name in names;
          return None;
        }
        value := parsed.value;
      }
      if value == JNull && name == "plugin_config" { value := JObj([]); }
      config := config[name := value];
    }
    assert names[..|names|] == names;
    return Some(config);
  }

  // ----- One push in each direction -----

  /** One side has an attribute that the other lacks or holds differently. */
  predicate Differs(from: Settings, to: Settings, name: string) {
    name in from && !(name in to && IsEqual(from[name], to[name]))
  }

  /** The attributes the viewer has that the model lacks or holds differently. */
  predicate MustPull(names: seq<string>, config: Settings, model: Settings, name: string) {
    name in names && Differs(config, model, name)
  }

  /** The model after it takes every differing attribute from the viewer. */
  function Pulled(names: seq<string>, config: Settings, model: Settings): (m: Settings)
    ensures forall k :: k in m <==> k in model || MustPull(names, config, model, k)
  {
    map k | k in model.Keys + config.Keys && (k in model || MustPull(names, config, model, k)) ::
      if MustPull(names, config, model, k) then config[k] else model[k]
  }

  /** What the viewer is asked to restore: every attribute of the model it lacks or holds differently. */
  function Difference(names: seq<string>, config: Settings, model: Settings): Settings {
    map k | k in model && k in names && Differs(model, config, k) :: model[k]
  }

  /** The model holds everything the viewer saves. */
  ghost predicate ModelHasViewer(names: seq<string>, config: Settings, model: Settings) {
    forall k :: k in names && k in config ==> k in model && IsEqual(config[k], model[k])
  }

  /** The viewer saves everything the model holds. */
  ghost predicate ViewerHasModel(names: seq<string>, config: Settings, model: Settings) {
    forall k :: k in names && k in model ==> k in config && IsEqual(model[k], config[k])
  }

  ghost predicate AgreeOnShared(names: seq<string>, config: Settings, model: Settings) {
    forall k :: k in names && k in config && k in model ==> IsEqual(config[k], model[k])
  }

  /** How many of the two directions still have something to push. */
  ghost function Unsettled(names: seq<string>, config: Settings, model: Settings): nat {
    (if ModelHasViewer(names, config, model) then 0 else 1) + (if ViewerHasModel(names, config, model) then 0 else 1)
  }

  // ----- The loops, one attribute at a time -----

  lemma NextAttribute(names: seq<string>, i: nat)
    requires Distinct(names) && i < |names|
    ensures names[i] !in names[..i] && names[..i + 1] == names[..i] + [names[i]]
  {
  }

  lemma PulledNext(done: seq<string>, name: string, config: Settings, model: Settings)
    requires name !in done
    ensures Differs(config, Pulled(done, config, model), name) <==> Differs(config, model, name)
    ensures Pulled(done + [name], config, model) ==
            if Differs(config, model, name)
            then Pulled(done, config, model)[name := config[name]] else Pulled(done, config, model)
  {
    forall k ensures MustPull(done + [name], config, model, k) <==>
                     MustPull(done, config, model, k) || (k == name && MustPull([name], config, model, name)) {}
  }

  lemma DifferenceNext(done: seq<string>, name: string, config: Settings, model: Settings)
    ensures Difference(done + [name], config, model) ==
            if Differs(model, config, name)
            then Difference(done, config, model)[name := model[name]] else Difference(done, config, model)
  {
  }

  lemma HasViewerNext(done: seq<string>, name: string, config: Settings, model: Settings)
    ensures ModelHasViewer(done + [name], config, model) <==>
            ModelHasViewer(done, config, model) && !Differs(config, model, name)
  {
    if ModelHasViewer(done + [name], config, model) {
      assert name in done + [name];
      assert forall k :: k in done ==> k in done + [name];
    }
  }

  lemma NothingToRestore(names: seq<string>, config: Settings, model: Settings)
    ensures Difference(names, config, model) == map[] <==> ViewerHasModel(names, config, model)
  {
    var diff := Difference(names, config, model);
    if k :| k in names && k in model && !(k in config && IsEqual(model[k], config[k])) {
      assert k in diff;
    } else {
      assert diff.Keys == {};
    }
  }

  // ----- Settling -----

  /** A value normalising leaves alone. */
  predicate Normal(parse: Parser, name: string, value: Json) {
    NormalValue(parse, name, value) == Some(value)
  }

  ghost predicate AllNormal(names: seq<string>, parse: Parser, m: Settings) {
    forall k :: k in names && k in m ==> Normal(parse, k, m[k])
  }

  /** What the reconciler takes for granted: both sides hold JSON, in normal form once the viewer's is normalised. */
  ghost predicate Ready(names: seq<string>, parse: Parser, viewer: Settings, model: Settings) {
    && Normalises(names, parse, viewer)
    && AllWellFormed(NormalSettings(names, parse, viewer)) &&
        AllNormal(names, parse, NormalSettings(names, parse, viewer))
    && AllWellFormed(model) && AllNormal(names, parse, model)
  }

  /** Restoring normal values overrides the saved settings by exactly those values. */
  lemma RestoreOverrides(names: seq<string>, parse: Parser, viewer: Settings, diff: Settings)
    requires Normalises(names, parse, viewer)
    requires AllNormal(names, parse, diff) && forall k :: k in diff ==> k in names
    ensures Normalises(names, parse, viewer + diff)
    ensures NormalSettings(names, parse, viewer + diff) == NormalSettings(names, parse, viewer) + diff
  {
    forall k | k in names && k in viewer + diff ensures NormalValue(parse, k, (viewer + diff)[k]).Some? {
      if k in diff { assert Normal(parse, k, diff[k]); }
    }
    var c := NormalSettings(names, parse, viewer + diff);
    forall k | k in c ensures c[k] == (NormalSettings(names, parse, viewer) + diff)[k] {
      if k in diff { assert Normal(parse, k, diff[k]); }
    }
  }

  lemma Symmetric(a: Json, b: Json)
    requires WellFormed(a) && WellFormed(b)
    ensures IsEqual(a, a)
    ensures IsEqual(a, b) <==> IsEqual(b, a)
  {
    IsEqualIsEquivalence(a, b, a);
    IsEqualIsEquivalence(b, a, b);
  }

  /** Agreement in one direction says of the shared attributes what it does in the other. */
  lemma SharedEqual(names: seq<string>, config: Settings, model: Settings)
    requires AllWellFormed(config) && AllWellFormed(model)
    ensures ModelHasViewer(names, config, model) || ViewerHasModel(names, config, model) ==>
        AgreeOnShared(names, config, model)
  {
    forall k | k in names && k in config && k in model
        ensures IsEqual(config[k], model[k]) <==> IsEqual(model[k], config[k]) {
      Symmetric(config[k], model[k]);
    }
  }

  /**
   * Pushing up settles that direction, never unsettles the other, and settles it too exactly when
   * the model had no attribute the viewer does not save.
   */
  lemma PullSettles(names: seq<string>, config: Settings, model: Settings)
    requires AllWellFormed(config) && AllWellFormed(model)
    ensures var after := Pulled(names, config, model);
            && AllWellFormed(after)
            && ModelHasViewer(names, config, after)
            && (forall k :: k in model ==> k in after && (after[k] != model[k] ==> k in names && k in config))
            && (forall k :: k in names && k in config && k in model && IsEqual(config[k], model[k]) ==>
                  after[k] == model[k])
            && (ViewerHasModel(names, config, after) <==> forall k :: k in names && k in model ==> k in config)
  {
    var after := Pulled(names, config, model);
    forall k | k in names && k in config
        ensures k in after && IsEqual(config[k], after[k]) && IsEqual(after[k], config[k]) {
      Symmetric(config[k], config[k]);
      if k in model { Symmetric(config[k], model[k]); }
    }
    if k :| k in names && k in model && k !in config {
      assert k in after;
    }
  }

  /**
   * What the model holds for a saved attribute after a push up: what its text parses to, but the text
   * itself if it is empty or the attribute is one of the six strings, and an empty object for an absent
   * plugin configuration.
   */
  lemma PushedValue(parse: Parser, viewer: Settings, model: Settings, name: string)
    requires Normalises(ATTRIBUTES, parse, viewer) && name in ATTRIBUTES && name in viewer
    requires AllWellFormed(NormalSettings(ATTRIBUTES, parse, viewer)) && AllWellFormed(model)
    ensures var after := Pulled(ATTRIBUTES, NormalSettings(ATTRIBUTES, parse, viewer), model);
            var raw := viewer[name];
            var isText := name in {"plugin", "theme", "title", "version", "group_rollup_mode", "split_rollup_mode"};
            && name in after
            && (raw.JStr? && raw.s != "" && !isText ==>
                  && parse(raw.s).Some?
                  && (!(name == "plugin_config" && parse(raw.s) == Some(JNull)) ==>
                      IsEqual(parse(raw.s).value, after[name]))
                  && (name == "plugin_config" && parse(raw.s) == Some(JNull) ==> IsEqual(JObj([]), after[name])))
            && (raw.JStr? && (raw.s == "" || isText) ==> IsEqual(raw, after[name]))
            && (raw == JNull && name == "plugin_config" ==> IsEqual(JObj([]), after[name]))
            && (!raw.JStr? && !(raw == JNull && name == "plugin_config") ==> IsEqual(raw, after[name]))
  {
    var config := NormalSettings(ATTRIBUTES, parse, viewer);
    PullSettles(ATTRIBUTES, config, model);
    assert NormalValue(parse, name, viewer[name]).Some?;
    assert config[name] == NormalValue(parse, name, viewer[name]).value;
  }

  /** The mirror image, for pushing down. */
  lemma RestoreSettles(names: seq<string>, config: Settings, model: Settings)
    requires AllWellFormed(config) && AllWellFormed(model)
    ensures var after := config + Difference(names, config, model);
            && AllWellFormed(after)
            && ViewerHasModel(names, after, model)
            && (forall k :: k in config ==> k in after && (after[k] != config[k] ==> k in names && k in model))
            && (forall k :: k in names && k in config && k in model && IsEqual(model[k], config[k]) ==>
                  after[k] == config[k])
            && (ModelHasViewer(names, after, model) <==> forall k :: k in names && k in config ==> k in model)
  {
    var after := config + Difference(names, config, model);
    forall k | k in names && k in model
        ensures k in after && IsEqual(model[k], after[k]) && IsEqual(after[k], model[k]) {
      Symmetric(model[k], model[k]);
      if k in config { Symmetric(model[k], config[k]); }
    }
    if k :| k in names && k in config && k !in model {
      assert k in after;
    }
  }

  datatype Task = ViewerToModel | ModelToViewer

  function Repeat(t: Task, n: nat): (r: seq<Task>)
    ensures |r| == n && forall i :: 0 <= i < n ==> r[i] == t
  {
    seq(n, i => t)
  }

  function Opposite(t: Task): Task {
    if t.ViewerToModel? then ModelToViewer else ViewerToModel
  }

  /** Whether one run of the task leaves nothing for either direction to push. */
  ghost predicate SettlesAll(names: seq<string>, viewer: Settings, model: Settings, t: Task) {
    match t
    case ViewerToModel => forall k :: k in names && k in model ==> k in viewer
    case ModelToViewer => forall k :: k in names && k in viewer ==> k in model
  }

  /** Whether the task's own direction has nothing left to push. */
  ghost predicate SettledIn(names: seq<string>, config: Settings, model: Settings, t: Task) {
    match t
    case ViewerToModel => ModelHasViewer(names, config, model)
    case ModelToViewer => ViewerHasModel(names, config, model)
  }

  /**
   * Whether a task after the first will change something: the first one leaves something to push the
   * other way, and a task of that direction is queued, or is requested because the first changed
   * something. Pushing up always requests one; pushing down as often as the viewer announces it.
   */
  ghost predicate LaterTaskChanges(names: seq<string>, config: Settings, viewer: Settings, model: Settings,
                                   queue: seq<Task>, echoes: nat)
    requires queue != []
  {
    && !SettlesAll(names, viewer, model, queue[0])
    && (|| Opposite(queue[0]) in queue[1..]
        || (!SettledIn(names, config, model, queue[0]) && (queue[0].ViewerToModel? || echoes > 0)))
  }

  class Widget {
    const names: seq<string>
    const parse: Parser
    /** The settings `save` returns. Restoring overrides them attribute by attribute. */
    var viewer: Settings
    var model: Settings
    /** Tasks run one at a time, in the order they were requested. */
    var queue: seq<Task>

    constructor (parse: Parser, viewer: Settings, model: Settings)
      ensures names == ATTRIBUTES && Distinct(names)
      ensures this.parse == parse && this.viewer == viewer && this.model == model && queue == []
    {
      names, this.parse, this.viewer, this.model, queue := ATTRIBUTES, parse, viewer, model, [];
    }

    /** The normalised settings, or none where normalising throws. */
    ghost function Config(): Settings
      reads this
      requires Normalises(names, parse, viewer)
    {
      NormalSettings(names, parse, viewer)
    }

    method Enqueue(t: Task)
      modifies this`queue
      ensures queue == old(queue) + [t]
    {
      queue := queue + [t];
    }

    /** `model.set`, and the `change:` listener it calls. */
    method SetTrait(name: string, value: Json)
      modifies this`model, this`queue
      ensures model == old(model)[name := value] && queue == old(queue) + [ModelToViewer]
    {
      model := model[name := value];
      Enqueue(ModelToViewer);
    }

    method SetIfDiffers(config: Settings, name: string) returns (differs: bool)
      modifies this`model, this`queue
      ensures differs == Differs(config, old(model), name)
      ensures model == if differs then old(model)[name := config[name]] else old(model)
      ensures queue == if differs then old(queue) + [ModelToViewer] else old(queue)
    {
      differs := name in config && !(name in model && IsEqual(config[name], model[name]));
      if differs { SetTrait(name, config[name]); }
    }

    /** Sets every trait that differs from the saved settings. */
    method SetDiffering(config: Settings) returns (changed: nat)
      requires Distinct(names)
      modifies this`model, this`queue
      ensures model == Pulled(names, config, old(model))
      ensures changed == 0 <==> ModelHasViewer(names, config, old(model))
      ensures queue == old(queue) + Repeat(ModelToViewer, changed)
    {
      changed := 0;
      ghost var before, requested := model, queue;
      assert before == Pulled([], config, before);
      for i := 0 to |names|
        invariant model == Pulled(names[..i], config, before)
        invariant changed == 0 <==> ModelHasViewer(names[..i], config, before)
        invariant queue == requested + Repeat(ModelToViewer, changed)
      {
        var name := names[i];
        NextAttribute(names, i);
        PulledNext(names[..i], name, config, before);
        HasViewerNext(names[..i], name, config, before);
        var differs := SetIfDiffers(config, name);
        if differs { changed := changed + 1; }
      }
      assert names[..|names|] == names;
    }

    /** Pushes every differing attribute up; each one set announces a change of the model. */
    method PushViewerToModel() returns (changed: nat)
      requires Distinct(names)
      modifies this`model, this`queue
      ensures !Normalises(names, parse, viewer) ==> model == old(model) && changed == 0
      ensures Normalises(names, parse, viewer) ==> model == Pulled(names, Config(), old(model))
      ensures Normalises(names, parse, viewer) ==> (changed == 0 <==> ModelHasViewer(names, Config(), old(model)))
      ensures queue == old(queue) + Repeat(ModelToViewer, changed)
    {
      var saved := NormalizeConfig(names, parse, viewer);
      if saved == None { return 0; }
      changed := SetDiffering(saved.value);
    }

    /** Restores the differing attributes in one call, which the viewer announces `echoes` times. */
    method PushModelToViewer(echoes: nat) returns (restored: bool)
      modifies this`viewer, this`queue
      ensures !restored ==> viewer == old(viewer) && queue == old(queue)
      ensures restored ==> queue == old(queue) + Repeat(ViewerToModel, echoes)
      ensures restored <==> old(Normalises(names, parse, viewer)) && !ViewerHasModel(names, old(Config()), model)
      ensures restored ==> viewer == old(viewer) + Difference(names, old(Config()), model)
    {
      var saved := NormalizeConfig(names, parse, viewer);
      if saved == None { return false; }
      var config := saved.value;
      var diff: Settings := map[];
      assert diff == Difference([], config, model);
      for i := 0 to |names|
        invariant diff == Difference(names[..i], config, model)
        invariant viewer == old(viewer) && queue == old(queue)
      {
        var name := names[i];
        assert names[..i + 1] == names[..i] + [name];
        DifferenceNext(names[..i], name, config, model);
        if name in model && !(name in config && IsEqual(model[name], config[name])) {
          diff := diff[name := model[name]];
        }
      }
      assert names[..|names|] == names;
      NothingToRestore(names, config, model);
      restored := diff != map[];
      if restored {
        viewer := viewer + diff;
        queue := queue + Repeat(ViewerToModel, echoes);
      }
    }

    ghost predicate IsReady()
      reads this
    {
      Distinct(names) && Ready(names, parse, viewer, model)
    }

    /** How many directions still have something to push. */
    ghost function Open(): nat
      reads this
      requires IsReady()
    {
      Unsettled(names, Config(), model)
    }

    ghost predicate Settled(t: Task)
      reads this
      requires IsReady()
    {
      SettledIn(names, Config(), model, t)
    }

    method RunPush() returns (announced: nat)
      requires IsReady()
      modifies this`model, this`queue
      ensures IsReady() && Settled(ViewerToModel)
      ensures old(Settled(ModelToViewer)) ==> Settled(ModelToViewer)
      ensures Settled(ModelToViewer) <==> old(SettlesAll(names, viewer, model, ViewerToModel))
      ensures announced == 0 <==> old(Settled(ViewerToModel))
      ensures announced == 0 ==> model == old(model)
      ensures old(model).Keys <= model.Keys
      ensures queue == old(queue) + Repeat(ModelToViewer, announced)
    {
      PullSettles(names, Config(), model);
      announced := PushViewerToModel();
      assert AllNormal(names, parse, model);
    }

    method RunRestore(echoes: nat) returns (changed: bool)
      requires IsReady()
      modifies this`viewer, this`queue
      ensures IsReady() && Settled(ModelToViewer)
      ensures old(Settled(ViewerToModel)) ==> Settled(ViewerToModel)
      ensures Settled(ViewerToModel) <==> old(SettlesAll(names, viewer, model, ModelToViewer))
      ensures changed <==> !old(Settled(ModelToViewer))
      ensures !changed ==> viewer == old(viewer)
      ensures old(viewer).Keys <= viewer.Keys
      ensures queue == old(queue) + Repeat(ViewerToModel, if changed then echoes else 0)
    {
      RestoreSettles(names, Config(), model);
      RestoreOverrides(names, parse, viewer, Difference(names, Config(), model));
      changed := PushModelToViewer(echoes);
    }

    /**
     * Runs the first task of the queue. It settles its own direction, never unsettles the other, and
     * changes nothing exactly when its direction was settled already.
     */
    method RunTask(echoes: nat) returns (changed: bool, announced: nat)
      requires IsReady() && queue != []
      modifies this
      ensures IsReady()
      ensures Settled(old(queue[0])) && forall t :: old(Settled(t)) ==> Settled(t)
      ensures Open() == 0 <==> old(SettlesAll(names, viewer, model, queue[0]))
      ensures changed <==> !old(Settled(queue[0]))
      ensures !changed ==> viewer == old(viewer) && model == old(model) && announced == 0
      ensures old(viewer).Keys <= viewer.Keys && old(model).Keys <= model.Keys
      ensures changed ==> (announced > 0 <==> old(queue[0]).ViewerToModel? || echoes > 0)
      ensures queue == old(queue[1..]) + Repeat(Opposite(old(queue[0])), announced)
    {
      var task := queue[0];
      queue := queue[1..];
      match task {
        case ViewerToModel =>
          announced := RunPush();
          changed := announced > 0;
        case ModelToViewer =>
          changed := RunRestore(echoes);
          announced := if changed then echoes else 0;
      }
    }

    /**
     * Runs the queue once a first task has settled its direction: then one task at most changes
     * anything, and one does exactly if the other direction is unsettled and a task of it is queued.
     */
    method DrainRest(ghost first: Task, echoes: nat -> nat) returns (later: nat)
      requires IsReady() && Settled(first)
      modifies this
      ensures IsReady() && queue == []
      ensures forall t :: t in old(queue) || old(Settled(t)) ==> Settled(t)
      ensures later == if old(Open()) > 0 && Opposite(first) in old(queue) then 1 else 0
      ensures later == old(Open()) - Open()
      ensures old(viewer).Keys <= viewer.Keys && old(model).Keys <= model.Keys
    {
      later := 0;
      ghost var other, left, requested := Opposite(first), Open(), queue;
      var i := 1;
      while queue != []
        invariant IsReady() && Settled(first) && later + Open() == left
        invariant old(Settled(other)) ==> Settled(other)
        invariant old(viewer).Keys <= viewer.Keys && old(model).Keys <= model.Keys
        invariant other in requested ==> other in queue || Settled(other)
        invariant other !in requested ==> later == 0 && other !in queue
        decreases Open(), |queue|
      {
        ghost var head, waiting := queue[0], queue;
        var changed, announced := RunTask(echoes(i));
        TailOf(waiting, other);
        if changed { later := later + 1; }
        i := i + 1;
      }
    }

    /**
     * Runs tasks until none is queued, `echoes(i)` being how often the viewer announces the i-th
     * task's restore. It ends with every queued direction settled, after at most two tasks that
     * changed anything; `later` counts those after the first task, and the state before the first
     * one tells whether there is any.
     */
    method Drain(echoes: nat -> nat) returns (later: nat)
      requires IsReady()
      modifies this
      ensures IsReady() && queue == []
      ensures forall t :: t in old(queue) || old(Settled(t)) ==> Settled(t)
      ensures old(queue) != [] ==> AgreeOnShared(names, Config(), model)
      ensures old(queue) != [] ==>
                later == if old(LaterTaskChanges(names, Config(), viewer, model, queue, echoes(0))) then 1 else 0
      ensures later == 1 ==> Open() == 0
      ensures old(viewer).Keys <= viewer.Keys && old(model).Keys <= model.Keys
      ensures old(queue) == [] ==> later == 0 && viewer == old(viewer) && model == old(model)
    {
      if queue == [] { return 0; }
      ghost var first, requested := queue[0], queue;
      var changed, announced := RunTask(echoes(0));
      TailOf(requested, Opposite(first));
      QueueAfter(requested[1..], Opposite(first), announced);
      assert forall t :: t in requested ==> t == first || t in queue;
      later := DrainRest(first, echoes);
      SharedEqual(names, Config(), model);
    }
  }

  lemma QueueAfter(queue: seq<Task>, t: Task, n: nat)
    ensures t in queue + Repeat(t, n) <==> t in queue || n > 0
    ensures forall u :: u in queue ==> u in queue + Repeat(t, n)
  {
    if n > 0 { assert (queue + Repeat(t, n))[|queue|] == t; }
  }

  lemma TailOf(queue: seq<Task>, t: Task)
    requires queue != []
    ensures t in queue <==> t == queue[0] || t in queue[1..]
  {
  }

  // ----- A second task that changes something -----

  const TITLE_ONLY: Settings := map["title" := JStr("Orders")]
  const THEME_ONLY: Settings := map["theme" := JStr("Dark")]

  /** A state the reconciler may start from, whose one queued push up leaves work for a second task. */
  lemma TitleAndThemeTakeTwoTasks(parse: Parser, echoes: nat)
    ensures Ready(ATTRIBUTES, parse, TITLE_ONLY, THEME_ONLY)
    ensures NormalSettings(ATTRIBUTES, parse, TITLE_ONLY) == TITLE_ONLY
    ensures "title" in ATTRIBUTES && "theme" in ATTRIBUTES
    ensures LaterTaskChanges(ATTRIBUTES, TITLE_ONLY, TITLE_ONLY, THEME_ONLY, [ViewerToModel], echoes)
  {
    assert ATTRIBUTES[14] == "title" && ATTRIBUTES[13] == "theme";
    assert "title" in STRING_ATTRIBUTES && "theme" in STRING_ATTRIBUTES;
    assert "theme" in THEME_ONLY && "title" in TITLE_ONLY;
  }

  /**
   * The viewer has a title and the model a theme, and one push up is queued. That push sets the title
   * on the model, which requests a push down; and that one restores the theme to the viewer.
   */
  method SecondTaskChangesSomething(parse: Parser, echoes: nat -> nat) returns (w: Widget, later: nat)
    ensures fresh(w) && w.queue == [] && later == 1
    ensures "title" in w.model && "theme" in w.viewer
  {
    w := new Widget(parse, TITLE_ONLY, THEME_ONLY);
    w.Enqueue(ViewerToModel);
    TitleAndThemeTakeTwoTasks(parse, echoes(0));
    assert w.queue == [ViewerToModel];
    later := w.Drain(echoes);
    assert "title" in TITLE_ONLY.Keys && "theme" in THEME_ONLY.Keys;
    assert "title" in w.Config() && "theme" in w.model;
  }
}

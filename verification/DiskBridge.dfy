/** Files backing the engine's heap, moved by reads and writes that may be partial or fail. */
module DiskBridge {
  import opened Common

  newtype Byte = b: int | 0 <= b < 256

  /**
   * What one system call does at an offset with so many bytes to go: it moves some of them, at
   * least one, or throws.
   */
  type Schedule = (nat, nat) -> Option<nat>

  ghost predicate MakesProgress(schedule: Schedule) {
    forall off: nat, left: nat {:trigger schedule(off, left)} ::
      left > 0 && schedule(off, left).Some? ==> 0 < schedule(off, left).value <= left
  }

  ghost predicate NeverThrows(schedule: Schedule) {
    forall off: nat, left: nat {:trigger schedule(off, left)} :: schedule(off, left).Some?
  }

  /** The file holds a proper prefix of the data, all others what they held. */
  ghost predicate LeavesPrefix(before: map<string, seq<Byte>>, after: map<string, seq<Byte>>, path: string,
                               data: seq<Byte>) {
    exists n: nat :: n < |data| && after == before[path := data[..n]]
  }

  /** The data lies at an address, and the rest of the heap is as it was. */
  ghost predicate Overlaid(before: seq<Byte>, after: seq<Byte>, at: nat, data: seq<Byte>) {
    at + |data| <= |before| && after == before[..at] + data + before[at + |data|..]
  }

  lemma OverlaidNext(before: seq<Byte>, between: seq<Byte>, after: seq<Byte>, at: nat, first: seq<Byte>,
                     second: seq<Byte>)
    requires Overlaid(before, between, at, first) && Overlaid(between, after, at + |first|, second)
    ensures Overlaid(before, after, at, first + second)
  {
    var end := at + |first| + |second|;
    assert between[..at + |first|] == before[..at] + first;
    assert between[end..] == before[end..];
  }

  /** A throwing read leaves a proper prefix of what was asked for on the heap. */
  ghost predicate OverlaidByPrefix(before: seq<Byte>, after: seq<Byte>, at: nat, data: seq<Byte>) {
    exists n: nat :: n < |data| && Overlaid(before, after, at, data[..n])
  }

  /** The path is the root or lies in it. */
  predicate IsUnder(root: string, path: string) {
    path == root || root + "/" <= path
  }

  /** No path under the root is refused; one that is not refused is under it exactly if a `/` follows the root. */
  lemma ConfinedExactly(root: string, path: string)
    ensures IsUnder(root, path) ==> root <= path
    ensures root <= path ==> (IsUnder(root, path) <==> |path| == |root| || path[|root|] == '/')
  {
    if root <= path && |path| > |root| && path[|root|] == '/' {
      assert path[..|root| + 1] == root + "/";
    }
    if root + "/" <= path {
      assert root <= root + "/";
      assert path[|root|] == (root + "/")[|root|];
    }
  }

  /** The directory of a process whose id begins with this one's digits is not refused. */
  lemma NeighbourIsNotRefused(root: string, digit: char, rest: string)
    requires digit != '/'
    ensures root <= root + [digit] + rest && !IsUnder(root, root + [digit] + rest)
  {
    var path := root + [digit] + rest;
    assert root <= path && path[|root|] == digit;
    ConfinedExactly(root, path);
  }

  class NodeDiskBridge {
    const heap: array<Byte>
    const root: string
    /** `path.join` of the root and a name. */
    const join: string -> string
    var files: map<string, seq<Byte>>

    constructor (heap: array<Byte>, root: string, join: string -> string)
      ensures this.heap == heap && this.root == root && this.join == join && files == map[]
    {
      this.heap, this.root, this.join, files := heap, root, join, map[];
    }

    /** The path of a name; a path that does not start with the root's characters is refused. */
    function Resolve(name: string): Option<string> {
      if root <= join(name) then Some(join(name)) else None
    }

    /** Overwrites the file from `off` on; the file reaches exactly that far. */
    method WriteAt(path: string, data: seq<Byte>, off: nat)
      requires path in files && off == |files[path]|
      modifies this`files
      ensures files == old(files)[path := old(files[path]) + data]
    {
      files := files[path := files[path] + data];
    }

    /** -1 is failure: the name was refused, or a call threw and left the file with a prefix of the data. */
    method Store(name: string, addr: nat, len: nat, opens: bool, write: Schedule) returns (r: int)
      requires MakesProgress(write)
      modifies this`files
      ensures r == len || r == -1
      ensures r == len <==>
          Resolve(name).Some? && opens && (len > 0 ==> addr + len <= heap.Length && Completes(write, 0, len))
      ensures r == len ==> files == old(files)[Resolve(name).value := if len == 0 then [] else heap[addr..addr + len]]
      ensures r == -1 && (Resolve(name).None? || !opens) ==> files == old(files)
      ensures r == -1 && Resolve(name).Some? && opens ==>
                if addr + len <= heap.Length
                then LeavesPrefix(old(files), files, Resolve(name).value, heap[addr..addr + len])
                else files == old(files)[Resolve(name).value := []]
    {
      var path := Resolve(name);
      if path == None || !opens { return -1; }
      files := files[path.value := []];
      if len > 0 {
        if addr + len > heap.Length { return -1; }
        var view := heap[addr..addr + len];
        var off := 0;
        while off < len
          invariant off <= len
          invariant files == old(files)[path.value := view[..off]]
          invariant Completes(write, 0, len) <==> Completes(write, off, len)
          decreases len - off
        {
          var n := write(off, len - off);
          if n == None { return -1; }
          assert view[..off] + view[off..off + n.value] == view[..off + n.value];
          WriteAt(path.value, view[off..off + n.value], off);
          off := off + n.value;
        }
        assert view[..off] == view;
      }
      return len;
    }

    /** How many bytes a read returns: none at the end of the file. */
    static function ReadCount(file: seq<Byte>, off: nat, left: nat, read: Schedule): Option<nat> {
      if off >= |file| || left == 0 then Some(0) else read(off, Min(left, |file| - off))
    }

    /** Copies the next bytes behind those already read. */
    method ReadOn(ghost before: seq<Byte>, addr: nat, file: seq<Byte>, ghost wanted: seq<Byte>, off: nat, n: nat)
      requires wanted <= file && off + n <= |wanted| && addr + |wanted| <= heap.Length == |before|
      requires Overlaid(before, heap[..], addr, wanted[..off])
      modifies heap
      ensures Overlaid(before, heap[..], addr, wanted[..off + n])
    {
      var bytes := file[off..off + n];
      ghost var between := heap[..];
      CopyIn(addr + off, bytes);
      assert wanted[..off] + bytes == wanted[..off + n];
      OverlaidNext(before, between, heap[..], addr, wanted[..off], bytes);
    }

    /** Reads until the length or the end of the file is reached; none if a call throws. */
    method ReadAll(file: seq<Byte>, addr: nat, len: nat, read: Schedule, ghost wanted: seq<Byte>)
      returns (r: Option<nat>)
      requires MakesProgress(read) && addr + len <= heap.Length && wanted == file[..Min(len, |file|)]
      modifies heap
      ensures r.Some? <==> Completes(read, 0, |wanted|)
      ensures r.Some? ==> r.value == |wanted| && Overlaid(old(heap[..]), heap[..], addr, wanted)
      ensures r.None? ==> OverlaidByPrefix(old(heap[..]), heap[..], addr, wanted)
    {
      ghost var before := heap[..];
      var off := 0;
      assert Overlaid(before, heap[..], addr, wanted[..0]);
      while off < len
        invariant off <= |wanted|
        invariant Overlaid(before, heap[..], addr, wanted[..off])
        invariant Completes(read, 0, |wanted|) <==> Completes(read, off, |wanted|)
        decreases len - off
      {
        var n := ReadCount(file, off, len - off, read);
        if n == None { return None; }
        if n.value == 0 { break; }
        ReadOn(before, addr, file, wanted, off, n.value);
        off := off + n.value;
      }
      assert off == |wanted| && wanted[..off] == wanted;
      return Some(off);
    }

    /** The number of bytes loaded. A missing file and a throwing read both give 0. */
    method Load(name: string, addr: nat, len: int, read: Schedule) returns (r: nat)
      requires MakesProgress(read)
      modifies heap
      ensures Loadable(name, addr, len) && Completes(read, 0, |Wanted(name, len)|) ==>
                r == |Wanted(name, len)| && Overlaid(old(heap[..]), heap[..], addr, Wanted(name, len))
      ensures Loadable(name, addr, len) && !Completes(read, 0, |Wanted(name, len)|) ==>
                r == 0 && OverlaidByPrefix(old(heap[..]), heap[..], addr, Wanted(name, len))
      ensures !Loadable(name, addr, len) ==> r == 0 && heap[..] == old(heap[..])
    {
      if len <= 0 { return 0; }
      var path := Resolve(name);
      if path == None || path.value !in files { return 0; }
      if addr + len > heap.Length { return 0; }
      var count := ReadAll(files[path.value], addr, len, read, Wanted(name, len));
      r := if count == None then 0 else count.value;
    }

    method CopyIn(at: nat, data: seq<Byte>)
      requires at + |data| <= heap.Length
      modifies heap
      ensures Overlaid(old(heap[..]), heap[..], at, data)
    {
      for i := 0 to |data|
        invariant heap[..] == old(heap[..at]) + data[..i] + old(heap[at + i..])
      {
        heap[at + i] := data[i];
        assert data[..i + 1] == data[..i] + [data[i]];
      }
      assert data[..|data|] == data;
    }

    /** What a load asks for: the file up to the length. */
    ghost function Wanted(name: string, len: int): seq<Byte>
      requires len > 0 && Resolve(name).Some? && Resolve(name).value in files
      reads this
    {
      var file := files[Resolve(name).value];
      file[..Min(len, |file|)]
    }

    ghost predicate Loadable(name: string, addr: nat, len: int)
      reads this
    {
      len > 0 && Resolve(name).Some? && Resolve(name).value in files && addr + len <= heap.Length
    }

    /** Removing what is not there is no error. */
    method Remove(name: string)
      modifies this`files
      ensures files == if Resolve(name).Some? then old(files) - {Resolve(name).value} else old(files)
    {
      var path := Resolve(name);
      if path.Some? && path.value in files {
        files := files - {path.value};
      }
    }
  }

  /**
   * Storing and loading back under any schedules that do not throw moves exactly the bytes stored,
   * or as many of them as asked for, and leaves the rest of the heap alone.
   */
  method StoreAndLoad(disk: NodeDiskBridge, name: string, source: nat, len: nat, target: nat, want: nat,
                      write: Schedule, read: Schedule) returns (r: nat)
    requires MakesProgress(write) && MakesProgress(read) && NeverThrows(write) && NeverThrows(read)
    requires disk.Resolve(name).Some? && 0 < len && source + len <= disk.heap.Length
    requires 0 < want && target + want <= disk.heap.Length
    modifies disk, disk.heap
    ensures r == Min(len, want)
    ensures Overlaid(old(disk.heap[..]), disk.heap[..], target, old(disk.heap[source..source + r]))
  {
    AlwaysCompletes(write, 0, len);
    AlwaysCompletes(read, 0, Min(len, want));
    var stored := disk.Store(name, source, len, true, write);
    r := disk.Load(name, target, want, read);
    assert disk.Wanted(name, want) == old(disk.heap[source..source + r]);
  }

  /** After a removal nothing is left to load. */
  method RemoveAndLoad(disk: NodeDiskBridge, name: string, target: nat, want: int, read: Schedule) returns (r: nat)
    requires MakesProgress(read)
    modifies disk, disk.heap
    ensures r == 0 && disk.heap[..] == old(disk.heap[..])
  {
    disk.Remove(name);
    r := disk.Load(name, target, want, read);
  }

  lemma {:induction false} AlwaysCompletes(schedule: Schedule, off: nat, end: nat)
    requires MakesProgress(schedule) && NeverThrows(schedule)
    ensures Completes(schedule, off, end)
    decreases end - off
  {
    if off < end {
      AlwaysCompletes(schedule, off + schedule(off, end - off).value, end);
    }
  }

  /** No call throws on the way from `off` to the end. */
  ghost predicate Completes(schedule: Schedule, off: nat, end: nat)
    requires MakesProgress(schedule)
    decreases end - off
  {
    off >= end || (schedule(off, end - off).Some? && Completes(schedule, off + schedule(off, end - off).value, end))
  }
}

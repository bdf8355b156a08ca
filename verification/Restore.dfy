/** `restoreReplaceDir` and its helpers in `src/main.go`: replacing a live
    directory with rollback, whichever file system calls fail. */
module Restore {
  import opened Options
  import opened Strings
  import opened FileTree

  type Slot = Option<Node>

  /** An I/O error while the copy works on one entry of its walk. When the entry is a
      file that could still be created, `cut` bytes of it have been written. */
  datatype Fault = Fault(at: nat, cut: Option<nat>)

  /** How each file system call of one restore turns out. A remainder is what a
      `RemoveAll` that failed half-way leaves behind. */
  datatype Outcomes = Outcomes(
    staleRemainder: Slot,
    statWorks: bool,
    moveAsideWorks: bool,
    mkdirWorks: bool,
    renameWorks: bool,
    copyFault: Option<Fault>,
    rollbackRemainder: Slot,
    rollbackWorks: bool,
    finalRemainder: Slot)

  datatype Result = Done | Failed | RollbackFailed

  /** `os.Rename` onto a place: a directory needs it absent or an empty directory, and
      anything else replaces what is not a directory. */
  predicate CanRename(n: Node, target: Slot) {
    target.None? || if n.Dir? then target.value == Dir(map[]) else !target.value.Dir?
  }

  // --- Copying ---

  /** The walk of `restoreCopyDir` over a source: links are opened like files. One that
      leads to a directory creates an empty file before the read fails, and one that leads
      nowhere fails at once; OtherEntry marks where the copy stops by itself. */
  function CopyWalk(n: Node): (r: seq<Entry>)
    decreases n, 1
  {
    match n
    case File(data) => [FileEntry([], data)]
    case Link(AFile(data)) => [FileEntry([], data)]
    case Link(ADirectory) => [FileEntry([], []), OtherEntry([])]
    case Link(Nothing) => [OtherEntry([])]
    case Dir(_) => [DirEntry([])] + Flatten(CopyParts(n))
  }

  function CopyParts(n: Node): (parts: seq<seq<Entry>>)
    requires n.Dir?
    ensures |parts| == |SortedKeys(n.children.Keys)|
    decreases n, 0
  {
    var ks := SortedKeys(n.children.Keys);
    seq(|ks|, i requires 0 <= i < |ks| =>
      assert ks[i] in ks;
      PrefixAll(ks[i], CopyWalk(n.children[ks[i]])))
  }

  /** A missing source fails in the first call of the walk. */
  function CopyEntries(src: Slot): seq<Entry> {
    if src.None? then [OtherEntry([])] else CopyWalk(src.value)
  }

  function CutShort(slot: Slot, e: Entry, cut: Option<nat>): Slot
    requires !e.OtherEntry?
  {
    if e.DirEntry? || cut.None? then slot
    else
      var part := if cut.value < |e.data| then e.data[..cut.value] else e.data;
      var r := Put(slot, e.name, FileEntry(e.name, part));
      if r.None? then slot else r
  }

  /** Writes the entries in order until one fails; true means all were written. */
  function CopyUpTo(slot: Slot, entries: seq<Entry>, fault: Option<Fault>): (Slot, bool)
    decreases |entries|
  {
    if entries == [] then (slot, true)
    else if entries[0].OtherEntry? then (slot, false)
    else if fault.Some? && fault.value.at == 0 then (CutShort(slot, entries[0], fault.value.cut), false)
    else
      var next := Put(slot, entries[0].name, entries[0]);
      if next.None? then (slot, false)
      else CopyUpTo(next, entries[1..], if fault.None? then None else Some(Fault(fault.value.at - 1, fault.value.cut)))
  }

  /** The same fault, seen after `i` entries. */
  function Ahead(fault: Option<Fault>, i: nat): Option<Fault> {
    if fault.None? || fault.value.at < i then None else Some(Fault(fault.value.at - i, fault.value.cut))
  }

  /** What the copy does at entry `i`. */
  lemma CopyStep(slot: Slot, entries: seq<Entry>, i: nat, fault: Option<Fault>)
    requires i < |entries| && (fault.None? || i <= fault.value.at)
    ensures var e := entries[i];
            CopyUpTo(slot, entries[i..], Ahead(fault, i)) ==
            if e.OtherEntry? then (slot, false)
            else if fault.Some? && fault.value.at == i then (CutShort(slot, e, fault.value.cut), false)
            else if Put(slot, e.name, e).None? then (slot, false)
            else CopyUpTo(Put(slot, e.name, e), entries[i + 1..], Ahead(fault, i + 1))
  {
    assert entries[i..][0] == entries[i] && entries[i..][1..] == entries[i + 1..];
  }

  /** A finished copy met no error. */
  lemma {:induction false} FinishedCopy(slot: Slot, entries: seq<Entry>, fault: Option<Fault>)
    requires CopyUpTo(slot, entries, fault).1
    ensures Plain(entries) && PutAll(slot, entries) == Some(CopyUpTo(slot, entries, fault).0)
    decreases |entries|
  {
    if entries != [] {
      var next := Put(slot, entries[0].name, entries[0]);
      FinishedCopy(next, entries[1..], if fault.None? then None else Some(Fault(fault.value.at - 1, fault.value.cut)));
      assert entries == [entries[0]] + entries[1..];
    }
  }

  lemma {:induction false} CopyWithoutError(slot: Slot, entries: seq<Entry>)
    requires Plain(entries) && PutAll(slot, entries).Some?
    ensures CopyUpTo(slot, entries, None) == (PutAll(slot, entries).value, true)
    decreases |entries|
  {
    if entries != [] {
      CopyWithoutError(Put(slot, entries[0].name, entries[0]), entries[1..]);
    }
  }

  /** The walk has no failing entry exactly when every link leads to a file, and then it
      is the walk over the tree with its links followed. */
  lemma {:induction false} CopyWalkFollows(n: Node, path: Path)
    ensures Plain(CopyWalk(n)) <==> Followed(n).Some?
    ensures Followed(n).Some? ==> CopyWalk(n) == WalkEntries(Followed(n).value, path, [])
    decreases n
  {
    assert !IsExcluded(path, []);
    match n
    case File(_) =>
    case Link(AFile(_)) =>
    case Link(ADirectory) => assert CopyWalk(n)[1].OtherEntry?;
    case Link(Nothing) => assert CopyWalk(n)[0].OtherEntry?;
    case Dir(children) =>
      var parts, ks := CopyParts(n), SortedKeys(children.Keys);
      forall i | 0 <= i < |ks| ensures Plain(parts[i]) <==> Followed(children[ks[i]]).Some? {
        assert ks[i] in ks;
        CopyWalkFollows(children[ks[i]], path + [ks[i]]);
        PlainPrefix(ks[i], CopyWalk(children[ks[i]]));
      }
      PlainParts([DirEntry([])], parts);
      if Followed(n).Some? {
        var f := Followed(n).value;
        assert f.children.Keys == children.Keys;
        forall i | 0 <= i < |ks| ensures parts[i] == EntryParts(f, path, [])[i] {
          assert ks[i] in ks;
          CopyWalkFollows(children[ks[i]], path + [ks[i]]);
        }
        assert parts == EntryParts(f, path, []);
      } else {
        var k :| k in children && Followed(children[k]).None?;
        assert k in ks;
      }
  }

  lemma PlainPrefix(k: string, entries: seq<Entry>)
    ensures Plain(PrefixAll(k, entries)) <==> Plain(entries)
  {
    var r := PrefixAll(k, entries);
    assert forall i | 0 <= i < |r| :: r[i].OtherEntry? <==> entries[i].OtherEntry?;
  }

  lemma PlainParts(first: seq<Entry>, parts: seq<seq<Entry>>)
    requires Plain(first)
    ensures Plain(first + Flatten(parts)) <==> forall i | 0 <= i < |parts| :: Plain(parts[i])
  {
    var all := first + Flatten(parts);
    if forall i | 0 <= i < |parts| :: Plain(parts[i]) {
      PlainFlatten(parts);
    } else {
      var i :| 0 <= i < |parts| && !Plain(parts[i]);
      var j :| 0 <= j < |parts[i]| && parts[i][j].OtherEntry?;
      InFlatten(parts, parts[i][j]);
      assert parts[i][j] in all;
    }
  }

  lemma {:induction false} FollowedHasNoLinks(n: Node)
    requires Followed(n).Some?
    ensures HasNoLinks(Followed(n).value)
    decreases n
  {
    if n.Dir? {
      forall k | k in n.children ensures HasNoLinks(Followed(n.children[k]).value) { FollowedHasNoLinks(n.children[k]); }
    }
  }

  lemma {:induction false} NoLinksKeepsAll(n: Node, path: Path)
    requires HasNoLinks(n)
    ensures Kept(n, path, []) == Some(n)
    decreases n
  {
    assert !IsExcluded(path, []);
    if n.Dir? {
      forall k | k in n.children ensures Kept(n.children[k], path + [k], []) == Some(n.children[k]) {
        NoLinksKeepsAll(n.children[k], path + [k]);
      }
      assert Kept(n, path, []).value.children == n.children;
    }
  }

  /** A copy can finish exactly when every link of the source leads to a file and the source
      fits what is there; a finished copy has merged the source into it, links followed. */
  lemma CopyMerges(src: Node, dst: Slot, fault: Option<Fault>)
    ensures CopyUpTo(dst, CopyWalk(src), fault).1 ==>
              Followed(src).Some? && CopyUpTo(dst, CopyWalk(src), fault).0.Some? &&
              CopyUpTo(dst, CopyWalk(src), fault).0 == Merge(dst, Followed(src).value)
    ensures CopyUpTo(dst, CopyWalk(src), None).1 <==> Followed(src).Some? && Merge(dst, Followed(src).value).Some?
  {
    CopyWalkFollows(src, []);
    if Followed(src).Some? {
      var n := Followed(src).value;
      FollowedHasNoLinks(src);
      NoLinksKeepsAll(n, []);
      WalkMerges(n, [], [], dst);
      if Merge(dst, n).Some? { CopyWithoutError(dst, CopyWalk(src)); }
    }
    if CopyUpTo(dst, CopyWalk(src), fault).1 { FinishedCopy(dst, CopyWalk(src), fault); }
    if CopyUpTo(dst, CopyWalk(src), None).1 { FinishedCopy(dst, CopyWalk(src), None); }
  }

  /** Copying into an empty place reproduces the source, links followed, and it fails,
      whatever is at the destination, when a link does not lead to a file. */
  lemma CopyReproducesSource(src: Node, fault: Option<Fault>)
    ensures CopyUpTo(None, CopyWalk(src), fault).1 ==> CopyUpTo(None, CopyWalk(src), fault).0 == Followed(src)
    ensures Followed(src).Some? ==> CopyUpTo(None, CopyWalk(src), None) == (Followed(src), true)
    ensures Followed(src).None? ==> forall dst: Slot :: !CopyUpTo(dst, CopyWalk(src), fault).1
  {
    CopyMerges(src, None, fault);
    CopyMerges(src, None, None);
    if Followed(src).Some? {
      FollowedHasNoLinks(src);
      MergeIntoNothing(Followed(src).value);
    } else {
      forall dst: Slot ensures !CopyUpTo(dst, CopyWalk(src), fault).1 { CopyMerges(src, dst, fault); }
    }
  }

  /** The three places a restore works with: source, destination, and `dst.restore-old`. */
  datatype Places = Places(src: Slot, dst: Slot, aside: Slot)

  datatype Restored = Restored(places: Places, result: Result)

  /** `restoreMoveDir` onto the destination; true means it succeeded. */
  function MoveDir(p: Places, o: Outcomes): (Places, bool) {
    if !o.mkdirWorks then (p, false)
    else if o.renameWorks && p.src.Some? && CanRename(p.src.value, p.dst) then (p.(src := None, dst := p.src), true)
    else
      var (left, copied) := CopyUpTo(p.dst, CopyEntries(p.src), o.copyFault);
      (p.(dst := left), copied)
  }

  /** `restoreReplaceDir`. */
  function ReplaceDir(p: Places, o: Outcomes): Restored {
    var p1 := p.(aside := if p.aside.None? then None else o.staleRemainder);
    if p1.dst.Some? && o.statWorks && !(o.moveAsideWorks && CanRename(p1.dst.value, p1.aside)) then Restored(p1, Failed)
    else
      var haveOld := p1.dst.Some? && o.statWorks;
      var p2 := if haveOld then p1.(dst := None, aside := p1.dst) else p1;
      var (p3, moved) := MoveDir(p2, o);
      if moved then
        Restored(if haveOld then p3.(aside := o.finalRemainder) else p3, Done)
      else if !haveOld then Restored(p3, Failed)
      else
        var p4 := p3.(dst := if p3.dst.None? then None else o.rollbackRemainder);
        if o.rollbackWorks && CanRename(p.dst.value, p4.dst) then Restored(p4.(dst := p4.aside, aside := None), Failed)
        else Restored(p4, RollbackFailed)
  }

  /** The old tree is whole at the destination, or beside it when the rollback itself failed. */
  predicate OldContentIsSafe(before: Places, r: Restored) {
    match r.result
    case Done => true
    case Failed => r.places.dst == before.dst
    case RollbackFailed => r.places.aside == before.dst
  }

  /** Whichever calls fail, a restore that does not complete keeps the old tree:
      at the destination, or at `dst.restore-old` if and only if the rollback failed too. */
  lemma RestoreNeverLosesContent(p: Places, o: Outcomes)
    requires p.dst.Some? && o.statWorks
    ensures OldContentIsSafe(p, ReplaceDir(p, o))
  {}

  // --- Restores that complete ---

  /** The destination is the source, or reads as the source through its links. */
  predicate HoldsSource(src: Node, dst: Slot) {
    dst == Some(src) || (dst.Some? && Followed(src).Some? && Followed(dst.value) == Followed(src))
  }

  /** The source came to an empty place or replaced what was there: the old tree was absent,
      was moved aside, or gave way to a rename. */
  predicate TakesPlace(p: Places, o: Outcomes) {
    p.dst.None? || o.statWorks || (o.renameWorks && p.src.Some? && CanRename(p.src.value, p.dst))
  }

  /** When Stat of an existing destination fails and no rename helps, a completed restore has
      merged the source into the live tree. */
  lemma CompletedRestoreMerges(p: Places, o: Outcomes)
    requires ReplaceDir(p, o).result.Done?
    ensures p.src.Some? && ReplaceDir(p, o).places.dst.Some?
    ensures TakesPlace(p, o) ==> ReplaceDir(p, o).places.dst == p.src || ReplaceDir(p, o).places.dst == Followed(p.src.value)
    ensures !TakesPlace(p, o) ==>
              Followed(p.src.value).Some? && ReplaceDir(p, o).places.dst == Merge(p.dst, Followed(p.src.value).value)
  {
    if p.src.Some? {
      CopyReproducesSource(p.src.value, o.copyFault);
      CopyMerges(p.src.value, p.dst, o.copyFault);
    }
  }

  /** A completed restore leaves the source, as it is or with links followed, exactly when the
      source took the destination's place or every name there is also in the source, with the same kind. */
  lemma CompletedRestoreFollowsLinks(p: Places, o: Outcomes)
    requires ReplaceDir(p, o).result.Done?
    ensures p.src.Some?
    ensures HoldsSource(p.src.value, ReplaceDir(p, o).places.dst) <==>
            TakesPlace(p, o) || (Followed(p.src.value).Some? && Within(p.dst.value, Followed(p.src.value).value, true))
  {
    CompletedRestoreMerges(p, o);
    if Followed(p.src.value).Some? {
      FollowedHasNoLinks(p.src.value);
      NoLinksToFollow(Followed(p.src.value).value);
      if !TakesPlace(p, o) { MergeIsTreeIff(p.dst.value, Followed(p.src.value).value); }
    }
  }

  /** The same for a source without links, which is then left exactly as it is. */
  lemma CompletedRestoreHoldsSource(p: Places, o: Outcomes)
    requires p.src.Some? && HasNoLinks(p.src.value) && ReplaceDir(p, o).result.Done?
    ensures ReplaceDir(p, o).places.dst == p.src <==> TakesPlace(p, o) || Within(p.dst.value, p.src.value, false)
  {
    NoLinksToFollow(p.src.value);
    CompletedRestoreMerges(p, o);
    if !TakesPlace(p, o) { MergeIsTreeIff(p.dst.value, p.src.value); }
  }

  /** No completed copy over the live tree can leave anything but the source: the copy cannot
      complete, or every name in the live tree is also in the source, with the same kind. */
  predicate CopyLeavesSource(src: Slot, dst: Node) {
    src.None? || Followed(src.value).None? || !Fits(dst, Followed(src.value).value) || Within(dst, Followed(src.value).value, true)
  }

  /** Over every outcome of the other calls, a completed restore leaves the source exactly when
      there was no old tree, or Stat of it works, or copying over it leaves the source. */
  lemma CompletesWithSourceIff(p: Places, statWorks: bool)
    ensures p.dst.None? || statWorks || CopyLeavesSource(p.src, p.dst.value) <==>
            forall o: Outcomes | o.statWorks == statWorks && ReplaceDir(p, o).result.Done? ::
              p.src.Some? && HoldsSource(p.src.value, ReplaceDir(p, o).places.dst)
  {
    if p.dst.None? || statWorks || CopyLeavesSource(p.src, p.dst.value) {
      forall o: Outcomes | o.statWorks == statWorks && ReplaceDir(p, o).result.Done?
        ensures p.src.Some? && HoldsSource(p.src.value, ReplaceDir(p, o).places.dst)
      {
        CompletedRestoreFollowsLinks(p, o);
        CompletedRestoreMerges(p, o);
        if !TakesPlace(p, o) {
          FollowedHasNoLinks(p.src.value);
          MergesIffFits(p.dst.value, Followed(p.src.value).value);
        }
      }
    } else {
      var o := Outcomes(None, false, true, true, false, None, None, true, None);
      CopyCompletes(p, o);
      CompletedRestoreFollowsLinks(p, o);
    }
  }

  /** Without Stat, rename and I/O errors, a source that fits is copied over the live tree. */
  lemma CopyCompletes(p: Places, o: Outcomes)
    requires p.src.Some? && p.dst.Some? && Followed(p.src.value).Some? && Fits(p.dst.value, Followed(p.src.value).value)
    requires !o.statWorks && o.mkdirWorks && !o.renameWorks && o.copyFault == None
    ensures ReplaceDir(p, o).result.Done? && !TakesPlace(p, o)
  {
    FollowedHasNoLinks(p.src.value);
    MergesIffFits(p.dst.value, Followed(p.src.value).value);
    CopyMerges(p.src.value, p.dst, None);
  }

  /** So a file of the live tree that the source does not have survives a restore that reports success. */
  lemma LeftoverStays(src: map<string, Node>, dst: map<string, Node>, x: string) returns (o: Outcomes)
    requires HasNoLinks(Dir(src)) && Fits(Dir(dst), Dir(src)) && x in dst && x !in src
    ensures var r := ReplaceDir(Places(Some(Dir(src)), Some(Dir(dst)), None), o);
            && r.result.Done? && !HoldsSource(Dir(src), r.places.dst)
            && r.places.dst.Some? && r.places.dst.value.Dir? && Child(r.places.dst.value.children, x) == Some(dst[x])
  {
    var p := Places(Some(Dir(src)), Some(Dir(dst)), None);
    o := Outcomes(None, false, true, true, false, None, None, true, None);
    NoLinksToFollow(Dir(src));
    CopyCompletes(p, o);
    CompletedRestoreMerges(p, o);
    CompletedRestoreFollowsLinks(p, o);
  }

  /** The smallest case: an empty directory restored over one that holds a file. */
  lemma EmptyRestoreKeepsOldFile() returns (o: Outcomes)
    ensures var live := Dir(map["a" := File([])]);
            ReplaceDir(Places(Some(Dir(map[])), Some(live), None), o) == Restored(Places(Some(Dir(map[])), Some(live), None), Done)
  {
    o := Outcomes(None, false, true, true, false, None, None, true, None);
    var p := Places(Some(Dir(map[])), Some(Dir(map["a" := File([])])), None);
    NoLinksToFollow(Dir(map[]));
    CopyCompletes(p, o);
    CompletedRestoreMerges(p, o);
    assert map["a" := File([])] + Values(Merges(map["a" := File([])], Dir(map[]))) == map["a" := File([])];
  }

  // --- When the destination cannot be inspected ---

  /** No write of the copy changes the destination before the copy can fail: up to the first
      conflict, every directory is already there and every file is empty on both sides. Only a
      directory made by the very last write may be new. */
  predicate Harmless(dst: Slot, entries: seq<Entry>)
    decreases |entries|
  {
    entries == [] || entries[0].OtherEntry? ||
    var e, rest := entries[0], entries[1..];
    var next := Put(dst, e.name, e);
    next.None? ||
    (if e.FileEntry? then next == dst && e.data == [] && Harmless(dst, rest)
     else rest == [] || (next == dst && Harmless(dst, rest)))
  }

  /** The same place cannot end up with two different contents for one file. */
  lemma {:induction false} PutTellsDataApart(slot: Slot, path: Path, a: Entry, b: Entry)
    requires a.FileEntry? && b.FileEntry? && a.data != b.data && Put(slot, path, a).Some?
    ensures Put(slot, path, b).Some? && Put(slot, path, a) != Put(slot, path, b)
    decreases |path|
  {
    if path != [] {
      var children := if slot.Some? then slot.value.children else map[];
      PutTellsDataApart(Child(children, path[0]), path[1..], a, b);
      assert Put(slot, path, a).value.children[path[0]] != Put(slot, path, b).value.children[path[0]];
    }
  }

  lemma {:induction false} HarmlessCopyChangesNothing(dst: Slot, entries: seq<Entry>, fault: Option<Fault>)
    requires Harmless(dst, entries) && !CopyUpTo(dst, entries, fault).1
    ensures CopyUpTo(dst, entries, fault).0 == dst
    decreases |entries|
  {
    var e := entries[0];
    if !e.OtherEntry? && fault.Some? && fault.value.at == 0 {
      if e.FileEntry? && Put(dst, e.name, e).None? {
        forall data: seq<Byte> ensures Put(dst, e.name, FileEntry(e.name, data)).None? {
          if Put(dst, e.name, FileEntry(e.name, data)).Some? && data != e.data {
            PutTellsDataApart(dst, e.name, FileEntry(e.name, data), e);
          }
        }
      }
    } else if !e.OtherEntry? {
      var next := Put(dst, e.name, e);
      if next.Some? && entries[1..] != [] {
        HarmlessCopyChangesNothing(dst, entries[1..], if fault.None? then None else Some(Fault(fault.value.at - 1, fault.value.cut)));
      }
    }
  }

  /** Otherwise one error at the wrong moment leaves a changed destination. */
  lemma {:induction false} HarmfulFault(dst: Slot, entries: seq<Entry>) returns (f: Fault)
    requires !Harmless(dst, entries)
    ensures !CopyUpTo(dst, entries, Some(f)).1 && CopyUpTo(dst, entries, Some(f)).0 != dst
    decreases |entries|
  {
    var e, rest := entries[0], entries[1..];
    var next := Put(dst, e.name, e);
    if e.FileEntry? && next != dst {
      f := Fault(0, Some(|e.data|));
    } else if e.FileEntry? && e.data != [] {
      PutTellsDataApart(dst, e.name, e, FileEntry(e.name, []));
      assert e.data[..0] == [];
      f := Fault(0, Some(0));
    } else if next != dst {
      f := Fault(1, None);
      assert !CopyUpTo(next, rest, Some(Fault(0, None))).1 && CopyUpTo(next, rest, Some(Fault(0, None))).0 == next;
    } else {
      var g := HarmfulFault(dst, rest);
      f := Fault(g.at + 1, g.cut);
    }
  }

  /** Over every outcome of the other calls, an unfinished restore keeps the old tree exactly
      when `os.Stat` of the existing destination succeeds, or no write of the copy can change
      the destination. When Stat fails the old tree is never moved aside, and an interrupted
      copy into it is not rolled back. */
  lemma SafeIff(p: Places, statWorks: bool)
    requires p.dst.Some?
    ensures statWorks || Harmless(p.dst, CopyEntries(p.src)) <==>
            forall o: Outcomes | o.statWorks == statWorks :: OldContentIsSafe(p, ReplaceDir(p, o))
  {
    if statWorks {
      forall o: Outcomes | o.statWorks == statWorks ensures OldContentIsSafe(p, ReplaceDir(p, o)) {
        RestoreNeverLosesContent(p, o);
      }
    } else if Harmless(p.dst, CopyEntries(p.src)) {
      forall o: Outcomes | o.statWorks == statWorks ensures OldContentIsSafe(p, ReplaceDir(p, o)) {
        if !CopyUpTo(p.dst, CopyEntries(p.src), o.copyFault).1 {
          HarmlessCopyChangesNothing(p.dst, CopyEntries(p.src), o.copyFault);
        }
      }
    } else {
      var f := HarmfulFault(p.dst, CopyEntries(p.src));
      var o := Outcomes(None, false, true, true, false, Some(f), None, true, None);
      assert !OldContentIsSafe(p, ReplaceDir(p, o));
    }
  }

  /** A missing source is always harmless. */
  lemma MissingSourceIsSafe(p: Places, o: Outcomes)
    requires p.dst.Some? && p.src.None?
    ensures OldContentIsSafe(p, ReplaceDir(p, o))
  {
    SafeIff(p, o.statWorks);
  }

  /** A source that holds a byte and fits into the destination is never harmless. */
  lemma {:induction false} AnyByteIsHarmful(dst: Slot, entries: seq<Entry>, i: nat)
    requires Plain(entries) && PutAll(dst, entries).Some?
    requires i < |entries| && entries[i].FileEntry? && entries[i].data != []
    ensures !Harmless(dst, entries)
    decreases |entries|
  {
    var next := Put(dst, entries[0].name, entries[0]);
    if i > 0 && next == dst { AnyByteIsHarmful(dst, entries[1..], i - 1); }
  }

  // --- A second attempt ---

  predicate Survives(n: Node, p: Places) {
    p.dst == Some(n) || p.aside == Some(n)
  }

  /** After a failed rollback the old tree is only at `dst.restore-old`. Whatever the other
      calls of a second attempt do, it is still somewhere exactly when that attempt's own first
      `RemoveAll` removed nothing of it, and what is at the destination cannot be renamed onto it. */
  lemma RetryKeepsOldTreeIff(p: Places, o: Outcomes, src: Slot, remainder: Slot)
    requires p.dst.Some? && o.statWorks && ReplaceDir(p, o).result.RollbackFailed?
    requires ReplaceDir(p, o).places.dst != p.dst
    ensures var left := ReplaceDir(p, o).places.dst;
            remainder == p.dst && !(left.Some? && CanRename(left.value, p.dst)) <==>
            forall o': Outcomes | o'.staleRemainder == remainder ::
              Survives(p.dst.value, ReplaceDir(ReplaceDir(p, o).places.(src := src), o').places)
  {
    RestoreNeverLosesContent(p, o);
    var q := ReplaceDir(p, o).places.(src := src);
    if remainder != p.dst {
      var o' := Outcomes(remainder, false, true, false, true, None, None, true, None);
      assert !Survives(p.dst.value, ReplaceDir(q, o').places);
    } else if q.dst.Some? && CanRename(q.dst.value, p.dst) {
      var o' := Outcomes(remainder, true, true, false, true, None, None, false, None);
      assert !Survives(p.dst.value, ReplaceDir(q, o').places);
    }
  }

  // --- The calls in order ---

  class Disk {
    var src: Slot
    var dst: Slot
    var aside: Slot

    function Now(): Places reads this {
      Places(src, dst, aside)
    }

    method RestoreMoveDir(o: Outcomes) returns (ok: bool)
      modifies this`src, this`dst
      ensures (Now(), ok) == MoveDir(old(Now()), o)
    {
      if !o.mkdirWorks { return false; }
      if o.renameWorks && src.Some? && CanRename(src.value, dst) {
        dst, src := src, None;
        return true;
      }
      ok := RestoreCopyDir(o.copyFault);
    }

    /** The loop over the walk: what a failed copy has written stays there. */
    method RestoreCopyDir(fault: Option<Fault>) returns (ok: bool)
      modifies this`dst
      ensures (dst, ok) == CopyUpTo(old(dst), CopyEntries(src), fault)
    {
      var entries := CopyEntries(src);
      for i := 0 to |entries|
        invariant fault.None? || i <= fault.value.at
        invariant CopyUpTo(dst, entries[i..], Ahead(fault, i)) == CopyUpTo(old(dst), entries, fault)
      {
        var e := entries[i];
        CopyStep(dst, entries, i, fault);
        if e.OtherEntry? { return false; }
        if fault.Some? && fault.value.at == i {
          dst := CutShort(dst, e, fault.value.cut);
          return false;
        }
        var next := Put(dst, e.name, e);
        if next.None? { return false; }
        dst := next;
      }
      assert entries[|entries|..] == [];
      ok := true;
    }

    method RestoreReplaceDir(o: Outcomes) returns (r: Result)
      modifies this
      ensures Restored(Now(), r) == ReplaceDir(old(Now()), o)
    {
      if aside.Some? { aside := o.staleRemainder; }
      var haveOld := false;
      if dst.Some? && o.statWorks {
        if !(o.moveAsideWorks && CanRename(dst.value, aside)) { return Failed; }
        aside, dst := dst, None;
        haveOld := true;
      }
      var moved := RestoreMoveDir(o);
      if !moved {
        if haveOld {
          if dst.Some? { dst := o.rollbackRemainder; }
          if !(o.rollbackWorks && CanRename(aside.value, dst)) { return RollbackFailed; }
          dst, aside := aside, None;
        }
        return Failed;
      }
      if haveOld { aside := o.finalRemainder; }
      r := Done;
    }
  }
}

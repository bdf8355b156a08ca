/** File trees, the sorted walk of `filepath.Walk`, and writing entries back
    into a tree. Shared by the backup archive and by the restore. */
module FileTree {
  import opened Options
  import opened Strings

  type Byte = x: int | 0 <= x < 256
  type Path = seq<string>

  /** What following a symbolic link leads to. */
  datatype Target = Nothing | ADirectory | AFile(data: seq<Byte>)

  datatype Node =
    | File(data: seq<Byte>)
    | Dir(children: map<string, Node>)
    | Link(target: Target)

  function Lookup(root: Node, path: Path): Option<Node> {
    if path == [] then Some(root)
    else if root.Dir? && path[0] in root.children then Lookup(root.children[path[0]], path[1..])
    else None
  }

  function Child<T>(children: map<string, T>, k: string): Option<T> {
    if k in children then Some(children[k]) else None
  }

  /** `isUnderDir` on cleaned paths: `path` equals `dir` or is nested inside it. */
  predicate IsUnder(path: Path, dir: Path) {
    |dir| <= |path| && path[..|dir|] == dir
  }

  predicate IsExcluded(path: Path, excludes: seq<Path>) {
    exists e | e in excludes :: IsUnder(path, e)
  }

  /** The tree with every link replaced by the file it leads to; None when one leads elsewhere. */
  function Followed(n: Node): Option<Node> {
    match n
    case File(_) => Some(n)
    case Link(AFile(data)) => Some(File(data))
    case Link(_) => None
    case Dir(children) =>
      if exists k | k in children :: Followed(children[k]).None? then None
      else Some(Dir(map k | k in children :: Followed(children[k]).value))
  }

  predicate HasNoLinks(n: Node) {
    match n
    case File(_) => true
    case Link(_) => false
    case Dir(children) => forall k | k in children :: HasNoLinks(children[k])
  }

  lemma {:induction false} NoLinksToFollow(n: Node)
    requires HasNoLinks(n)
    ensures Followed(n) == Some(n)
    decreases n
  {
    if n.Dir? {
      forall k | k in n.children ensures Followed(n.children[k]) == Some(n.children[k]) { NoLinksToFollow(n.children[k]); }
      assert Followed(n).Some?;
      assert Followed(n).value.children == n.children;
    }
  }

  // --- Writing entries into a tree ---

  datatype Entry =
    | DirEntry(name: Path)
    | FileEntry(name: Path, data: seq<Byte>)
    /** Links and other entries that extraction skips. */
    | OtherEntry(name: Path)

  /** Opening a place for writing: a link is followed, and the file it leads to is written. */
  function WriteFile(slot: Option<Node>, data: seq<Byte>): Option<Node> {
    if slot.None? then Some(File(data))
    else match slot.value
      case File(_) => Some(File(data))
      case Link(ADirectory) => None
      case Link(_) => Some(Link(AFile(data)))
      case Dir(_) => None
  }

  function Children(slot: Option<Node>): map<string, Node>
    requires slot.None? || slot.value.Dir?
  {
    if slot.Some? then slot.value.children else map[]
  }

  /** Creates what the entry names, at `path` below a place that may still be
      empty; None when a file stands where a directory is needed, or the reverse. */
  function Put(slot: Option<Node>, path: Path, e: Entry): (r: Option<Node>)
    requires !e.OtherEntry?
    decreases |path|
  {
    if path == [] then
      if e.DirEntry? then
        if slot.None? then Some(Dir(map[])) else if slot.value.Dir? then slot else None
      else WriteFile(slot, e.data)
    else if slot.Some? && !slot.value.Dir? then None
    else
      var children := Children(slot);
      var inner := Put(Child(children, path[0]), path[1..], e);
      if inner.None? then None else Some(Dir(children[path[0] := inner.value]))
  }

  /** The place after all entries; None when one of them could not be created. */
  function PutAll(slot: Option<Node>, entries: seq<Entry>): (r: Option<Option<Node>>)
    requires forall i | 0 <= i < |entries| :: !entries[i].OtherEntry?
    decreases |entries|
  {
    if entries == [] then Some(slot)
    else
      var next := Put(slot, entries[0].name, entries[0]);
      if next.None? then None else PutAll(next, entries[1..])
  }

  predicate Plain(entries: seq<Entry>) {
    forall i | 0 <= i < |entries| :: !entries[i].OtherEntry?
  }

  lemma PutAllConcat(slot: Option<Node>, xs: seq<Entry>, ys: seq<Entry>)
    requires Plain(xs) && Plain(ys)
    ensures PutAll(slot, xs + ys) ==
            if PutAll(slot, xs).None? then None else PutAll(PutAll(slot, xs).value, ys)
    decreases |xs|
  {
    if xs == [] {
      assert xs + ys == ys;
    } else {
      assert (xs + ys)[1..] == xs[1..] + ys;
      var next := Put(slot, xs[0].name, xs[0]);
      if next.Some? { PutAllConcat(next, xs[1..], ys); }
    }
  }

  function Prefixed(k: string, e: Entry): Entry {
    match e
    case DirEntry(name) => DirEntry([k] + name)
    case FileEntry(name, data) => FileEntry([k] + name, data)
    case OtherEntry(name) => OtherEntry([k] + name)
  }

  function PrefixAll(k: string, entries: seq<Entry>): (r: seq<Entry>)
    ensures |r| == |entries|
    ensures forall i | 0 <= i < |r| :: r[i] == Prefixed(k, entries[i])
  {
    seq(|entries|, i requires 0 <= i < |entries| => Prefixed(k, entries[i]))
  }

  lemma PutSameEntry(slot: Option<Node>, path: Path, k: string, e: Entry)
    requires !e.OtherEntry?
    ensures Put(slot, path, Prefixed(k, e)) == Put(slot, path, e)
    decreases |path|
  {
    if path != [] && (slot.None? || slot.value.Dir?) {
      var children := Children(slot);
      PutSameEntry(Child(children, path[0]), path[1..], k, e);
    }
  }

  /** Entries that all lie under `k` only touch the child `k`. */
  lemma {:induction false} PutAllUnderOneName(children: map<string, Node>, k: string, entries: seq<Entry>)
    requires Plain(entries)
    ensures var inner := PutAll(Child(children, k), entries);
            PutAll(Some(Dir(children)), PrefixAll(k, entries)) ==
            if inner.None? then None
            else if inner.value.None? then Some(Some(Dir(children)))
            else Some(Some(Dir(children[k := inner.value.value])))
    decreases |entries|
  {
    if entries == [] {
      if k in children { assert children[k := children[k]] == children; }
    } else {
      var e := entries[0];
      var p := Prefixed(k, e);
      assert PrefixAll(k, entries)[0] == p && p.name[1..] == e.name && p.name[0] == k;
      assert PrefixAll(k, entries)[1..] == PrefixAll(k, entries[1..]);
      PutSameEntry(Child(children, k), e.name, k, e);
      var next := Put(Child(children, k), e.name, e);
      if next.Some? {
        var grown := children[k := next.value];
        assert Put(Some(Dir(children)), p.name, p) == Some(Dir(grown));
        PutAllUnderOneName(grown, k, entries[1..]);
        assert Child(grown, k) == next;
        var inner := PutAll(next, entries[1..]);
        if inner.Some? {
          PutAllKeepsPlace(next, entries[1..]);
          assert grown[k := inner.value.value] == children[k := inner.value.value];
        }
      }
    }
  }

  /** A place that holds something still does after more entries. */
  lemma PutAllKeepsPlace(slot: Option<Node>, entries: seq<Entry>)
    requires Plain(entries) && PutAll(slot, entries).Some? && (slot.Some? || entries != [])
    ensures PutAll(slot, entries).value.Some?
    decreases |entries|
  {
    if entries != [] {
      var next := Put(slot, entries[0].name, entries[0]);
      if entries[1..] != [] || next.Some? { PutAllKeepsPlace(next, entries[1..]); }
    }
  }

  // --- Walking a tree ---

  /** What a walk archives of the node at `path`, named relative to it: the
      directories and regular files in `filepath.Walk` order, without excluded
      subtrees and symbolic links. */
  function WalkEntries(n: Node, path: Path, excludes: seq<Path>): (r: seq<Entry>)
    ensures Plain(r)
    decreases n, 1
  {
    if IsExcluded(path, excludes) then []
    else match n
      case Link(_) => []
      case File(data) => [FileEntry([], data)]
      case Dir(_) =>
        PlainFlatten(EntryParts(n, path, excludes));
        [DirEntry([])] + Flatten(EntryParts(n, path, excludes))
  }

  function EntryParts(n: Node, path: Path, excludes: seq<Path>): (parts: seq<seq<Entry>>)
    requires n.Dir?
    ensures |parts| == |SortedKeys(n.children.Keys)|
    ensures forall i | 0 <= i < |parts| :: Plain(parts[i])
    decreases n, 0
  {
    var ks := SortedKeys(n.children.Keys);
    seq(|ks|, i requires 0 <= i < |ks| =>
      assert ks[i] in ks;
      PrefixAll(ks[i], WalkEntries(n.children[ks[i]], path + [ks[i]], excludes)))
  }

  lemma PlainFlatten(parts: seq<seq<Entry>>)
    requires forall i | 0 <= i < |parts| :: Plain(parts[i])
    ensures Plain(Flatten(parts))
  {
    if parts != [] {
      PlainFlatten(parts[1..]);
      var rest := Flatten(parts[1..]);
      forall i | 0 <= i < |parts[0] + rest| ensures !(parts[0] + rest)[i].OtherEntry? {
        if i < |parts[0]| { assert Plain(parts[0]); }
      }
    }
  }

  /** The bytes a walk feeds to the hash. */
  function WalkBytes(n: Node, path: Path, excludes: seq<Path>): seq<Byte>
    decreases n, 1
  {
    if IsExcluded(path, excludes) then []
    else match n
      case Link(_) => []
      case File(data) => data
      case Dir(_) => Flatten(ByteParts(n, path, excludes))
  }

  function ByteParts(n: Node, path: Path, excludes: seq<Path>): (parts: seq<seq<Byte>>)
    requires n.Dir?
    ensures |parts| == |SortedKeys(n.children.Keys)|
    decreases n, 0
  {
    var ks := SortedKeys(n.children.Keys);
    seq(|ks|, i requires 0 <= i < |ks| =>
      assert ks[i] in ks;
      WalkBytes(n.children[ks[i]], path + [ks[i]], excludes))
  }

  // --- What a walk keeps of a tree ---

  /** The tree without excluded subtrees and symbolic links. */
  function Kept(n: Node, path: Path, excludes: seq<Path>): Option<Node>
    decreases n
  {
    if IsExcluded(path, excludes) then None
    else match n
      case Link(_) => None
      case File(data) => Some(n)
      case Dir(children) =>
        Some(Dir(map k | k in children && Kept(children[k], path + [k], excludes).Some? ::
                   Kept(children[k], path + [k], excludes).value))
  }

  lemma {:induction false} KeptHasNoLinks(n: Node, path: Path, excludes: seq<Path>)
    ensures Kept(n, path, excludes).Some? ==> HasNoLinks(Kept(n, path, excludes).value)
    decreases n
  {
    if n.Dir? {
      forall k | k in n.children
        ensures Kept(n.children[k], path + [k], excludes).Some? ==> HasNoLinks(Kept(n.children[k], path + [k], excludes).value)
      {
        KeptHasNoLinks(n.children[k], path + [k], excludes);
      }
    }
  }

  // --- Writing a tree over what is there ---

  /** A tree without links written over a place; None when a file stands where a directory
      is needed, or the reverse. */
  function Merge(slot: Option<Node>, n: Node): Option<Node>
    decreases n, 1
  {
    match n
    case Link(_) => None
    case File(data) => WriteFile(slot, data)
    case Dir(_) =>
      if slot.Some? && !slot.value.Dir? then None
      else
        var merged := Merges(Children(slot), n);
        if exists k | k in merged :: merged[k].None? then None
        else Some(Dir(Children(slot) + Values(merged)))
  }

  /** What becomes of each name of a directory that is written into another. */
  function Merges(base: map<string, Node>, n: Node): map<string, Option<Node>>
    requires n.Dir?
    decreases n, 0
  {
    map k | k in n.children :: Merge(Child(base, k), n.children[k])
  }

  function Values(merged: map<string, Option<Node>>): map<string, Node> {
    map k | k in merged && merged[k].Some? :: merged[k].value
  }

  /** Some of the names have a conflict. */
  predicate Clash(merged: map<string, Option<Node>>, ks: seq<string>) {
    exists k | k in ks :: k in merged && merged[k].None?
  }

  function Chosen(merged: map<string, Option<Node>>, ks: seq<string>): map<string, Node> {
    map k | k in merged && k in ks && merged[k].Some? :: merged[k].value
  }

  /** The directory once the names in `ks` have been written. */
  function MergedAmong(base: map<string, Node>, merged: map<string, Option<Node>>, ks: seq<string>): map<string, Node> {
    base + Chosen(merged, ks)
  }

  lemma ClashStep(merged: map<string, Option<Node>>, ks: seq<string>, k: string)
    ensures Clash(merged, ks + [k]) <==> Clash(merged, ks) || (k in merged && merged[k].None?)
  {
    if k in merged && merged[k].None? { assert k in ks + [k]; }
  }

  lemma ChosenStep(merged: map<string, Option<Node>>, ks: seq<string>, k: string)
    ensures Chosen(merged, ks + [k]) ==
            if k in merged && merged[k].Some? then Chosen(merged, ks)[k := merged[k].value] else Chosen(merged, ks)
  {}

  lemma UpdateLast(base: map<string, Node>, c: map<string, Node>, k: string, v: Node)
    ensures base + c[k := v] == (base + c)[k := v]
  {}

  lemma MergeStep(base: map<string, Node>, merged: map<string, Option<Node>>, ks: seq<string>, k: string)
    requires k !in ks
    ensures Child(MergedAmong(base, merged, ks), k) == Child(base, k)
    ensures MergedAmong(base, merged, ks + [k]) ==
            if k in merged && merged[k].Some? then MergedAmong(base, merged, ks)[k := merged[k].value] else MergedAmong(base, merged, ks)
  {
    ChosenStep(merged, ks, k);
    if k in merged && merged[k].Some? { UpdateLast(base, Chosen(merged, ks), k, merged[k].value); }
  }

  /** What is to be written of a node, merged into a place; None when nothing is. */
  function KeptMerge(slot: Option<Node>, n: Node, path: Path, excludes: seq<Path>): Option<Option<Node>> {
    var kept := Kept(n, path, excludes);
    if kept.None? then None else Some(Merge(slot, kept.value))
  }

  function Written(slot: Option<Node>, merged: Option<Option<Node>>): Option<Option<Node>> {
    if merged.None? then Some(slot) else if merged.value.None? then None else Some(merged.value)
  }

  /** Writing what a walk archived merges exactly the tree without the excluded subtrees
      and links into what is there. */
  lemma {:induction false} WalkMerges(n: Node, path: Path, excludes: seq<Path>, slot: Option<Node>)
    ensures PutAll(slot, WalkEntries(n, path, excludes)) == Written(slot, KeptMerge(slot, n, path, excludes))
    decreases n
  {
    if !IsExcluded(path, excludes) {
      match n
      case Link(_) =>
      case File(data) => assert [FileEntry([], data)][1..] == [];
      case Dir(children) =>
        if slot.None? || slot.value.Dir? {
          var base, kept := Children(slot), Kept(n, path, excludes).value;
          forall k | k in children ensures ChildGoes(base, Merges(base, kept), k, WalkEntries(children[k], path + [k], excludes)) {
            WalkMerges(children[k], path + [k], excludes, Child(base, k));
          }
          DirectoryWritten(n, path, excludes, slot, Merges(base, kept));
        }
    }
  }

  lemma DirectoryWritten(n: Node, path: Path, excludes: seq<Path>, slot: Option<Node>, merged: map<string, Option<Node>>)
    requires n.Dir? && !IsExcluded(path, excludes) && (slot.None? || slot.value.Dir?) && merged.Keys <= n.children.Keys
    requires forall k | k in n.children :: ChildGoes(Children(slot), merged, k, WalkEntries(n.children[k], path + [k], excludes))
    ensures PutAll(slot, WalkEntries(n, path, excludes)) ==
            if exists k | k in merged :: merged[k].None? then None else Some(Some(Dir(Children(slot) + Values(merged))))
  {
    var parts := EntryParts(n, path, excludes);
    DirectoryMerges(n, path, excludes, Children(slot), merged);
    assert ([DirEntry([])] + Flatten(parts))[1..] == Flatten(parts);
    assert Put(slot, [], DirEntry([])) == Some(Dir(Children(slot)));
  }

  /** The entries below `k` do to that name what `merged` says. */
  ghost predicate ChildGoes(base: map<string, Node>, merged: map<string, Option<Node>>, k: string, entries: seq<Entry>) {
    Plain(entries) && PutAll(Child(base, k), entries) == Written(Child(base, k), Child(merged, k))
  }

  lemma DirectoryMerges(n: Node, path: Path, excludes: seq<Path>, base: map<string, Node>, merged: map<string, Option<Node>>)
    requires n.Dir? && merged.Keys <= n.children.Keys
    requires forall k | k in n.children :: ChildGoes(base, merged, k, WalkEntries(n.children[k], path + [k], excludes))
    ensures var xs := Flatten(EntryParts(n, path, excludes));
            && Plain(xs)
            && PutAll(Some(Dir(base)), xs) ==
               if exists k | k in merged :: merged[k].None? then None else Some(Some(Dir(base + Values(merged))))
  {
    var parts, ks := EntryParts(n, path, excludes), SortedKeys(n.children.Keys);
    var walks := seq(|ks|, i requires 0 <= i < |ks| => assert ks[i] in ks; WalkEntries(n.children[ks[i]], path + [ks[i]], excludes));
    forall i | 0 <= i < |ks| ensures ChildGoes(base, merged, ks[i], walks[i]) { assert ks[i] in ks; }
    PartsMerge(base, merged, ks, walks, parts, |ks|);
    assert parts[..|ks|] == parts && ks[..|ks|] == ks;
    AllMerged(base, merged, ks);
  }

  lemma AllMerged(base: map<string, Node>, merged: map<string, Option<Node>>, ks: seq<string>)
    requires forall k | k in merged :: k in ks
    ensures Clash(merged, ks) <==> exists k | k in merged :: merged[k].None?
    ensures MergedAmong(base, merged, ks) == base + Values(merged)
  {
    if k :| k in merged && merged[k].None? { assert k in ks; }
    assert Chosen(merged, ks) == Values(merged);
  }

  /** The entries below the names in `ks` do to the directory what `merged` says. */
  ghost predicate NamesGo(base: map<string, Node>, merged: map<string, Option<Node>>, ks: seq<string>, entries: seq<Entry>) {
    Plain(entries) &&
    PutAll(Some(Dir(base)), entries) == if Clash(merged, ks) then None else Some(Some(Dir(MergedAmong(base, merged, ks))))
  }

  /** The first `i` names of a directory have been written. */
  lemma {:induction false} PartsMerge(base: map<string, Node>, merged: map<string, Option<Node>>, ks: seq<string>,
                                       walks: seq<seq<Entry>>, parts: seq<seq<Entry>>, i: nat)
    requires Ascending(ks) && |walks| == |parts| == |ks| && i <= |ks|
    requires forall j | 0 <= j < |ks| :: ChildGoes(base, merged, ks[j], walks[j]) && parts[j] == PrefixAll(ks[j], walks[j])
    ensures NamesGo(base, merged, ks[..i], Flatten(parts[..i]))
    decreases i
  {
    if i == 0 {
      NothingGoes(base, merged);
      assert ks[..0] == [] && parts[..0] == [];
    } else {
      PartsMerge(base, merged, ks, walks, parts, i - 1);
      FlattenStep(parts, i - 1);
      KeysDiffer(ks, i - 1);
      assert ks[..i] == ks[..i - 1] + [ks[i - 1]];
      ChildMerges(base, merged, ks[..i - 1], ks[i - 1], Flatten(parts[..i - 1]), walks[i - 1]);
    }
  }

  lemma NothingGoes(base: map<string, Node>, merged: map<string, Option<Node>>)
    ensures NamesGo(base, merged, [], [])
  {
    assert MergedAmong(base, merged, []) == base;
  }

  /** One more name after those in `ks`. */
  lemma ChildMerges(base: map<string, Node>, merged: map<string, Option<Node>>, ks: seq<string>, k: string, xs: seq<Entry>, ys: seq<Entry>)
    requires k !in ks && ChildGoes(base, merged, k, ys) && NamesGo(base, merged, ks, xs)
    ensures NamesGo(base, merged, ks + [k], xs + PrefixAll(k, ys))
  {
    PutAllConcat(Some(Dir(base)), xs, PrefixAll(k, ys));
    ClashStep(merged, ks, k);
    MergeStep(base, merged, ks, k);
    ChildWritten(MergedAmong(base, merged, ks), k, ys, Child(merged, k));
  }

  lemma ChildWritten(done: map<string, Node>, k: string, entries: seq<Entry>, merged: Option<Option<Node>>)
    requires Plain(entries) && PutAll(Child(done, k), entries) == Written(Child(done, k), merged)
    ensures PutAll(Some(Dir(done)), PrefixAll(k, entries)) ==
            if merged.None? then Some(Some(Dir(done)))
            else if merged.value.None? then None else Some(Some(Dir(done[k := merged.value.value])))
  {
    PutAllUnderOneName(done, k, entries);
    if k in done { assert done[k := done[k]] == done; }
  }

  lemma {:induction false} MergeIntoNothing(n: Node)
    requires HasNoLinks(n)
    ensures Merge(None, n) == Some(n)
    decreases n
  {
    if n.Dir? {
      forall k | k in n.children ensures Merge(None, n.children[k]) == Some(n.children[k]) { MergeIntoNothing(n.children[k]); }
      assert forall k | k in n.children :: Merges(map[], n)[k] == Some(n.children[k]);
      assert Values(Merges(map[], n)) == n.children;
      assert map[] + n.children == n.children;
    }
  }

  /** Writing back what a walk archived rebuilds exactly the tree without the
      excluded subtrees and links. */
  lemma WalkRebuilds(n: Node, path: Path, excludes: seq<Path>)
    ensures PutAll(None, WalkEntries(n, path, excludes)) == Some(Kept(n, path, excludes))
  {
    WalkMerges(n, path, excludes, None);
    KeptHasNoLinks(n, path, excludes);
    if Kept(n, path, excludes).Some? { MergeIntoNothing(Kept(n, path, excludes).value); }
  }

  /** The tree can be written over what is there: directories meet directories, and files
      meet files or links that do not lead to a directory. */
  predicate Fits(d: Node, n: Node) {
    match n
    case Link(_) => false
    case File(_) => d.File? || (d.Link? && !d.target.ADirectory?)
    case Dir(children) => d.Dir? && forall k | k in children && k in d.children :: Fits(d.children[k], children[k])
  }

  /** Every name that is there is also in the tree, with the same kind; `links` says
      whether a link may stand for a file. */
  predicate Within(d: Node, n: Node, links: bool)
    decreases d
  {
    match d
    case File(_) => n.File?
    case Link(target) => n.File? && links && !target.ADirectory?
    case Dir(children) => n.Dir? && forall k | k in children :: k in n.children && Within(children[k], n.children[k], links)
  }

  lemma {:induction false} MergesIffFits(d: Node, n: Node)
    requires HasNoLinks(n)
    ensures Merge(Some(d), n).Some? <==> Fits(d, n)
    decreases n
  {
    if n.Dir? && d.Dir? {
      forall k | k in n.children
        ensures Merge(Child(d.children, k), n.children[k]).Some? <==> k !in d.children || Fits(d.children[k], n.children[k])
      {
        if k in d.children { MergesIffFits(d.children[k], n.children[k]); } else { MergeIntoNothing(n.children[k]); }
      }
    }
  }

  /** What is there afterwards is the tree, or reads as the tree, exactly when nothing else was there. */
  lemma {:induction false} MergeIsTreeIff(d: Node, n: Node)
    requires HasNoLinks(n) && Merge(Some(d), n).Some?
    ensures Merge(Some(d), n) == Some(n) <==> Within(d, n, false)
    ensures Followed(Merge(Some(d), n).value) == Some(n) <==> Within(d, n, true)
    decreases n
  {
    if n.Dir? {
      var m := Merge(Some(d), n).value;
      forall k | k in n.children ensures ChildIsTree(d, n, m, k) {
        if k in d.children {
          MergeIsTreeIff(d.children[k], n.children[k]);
        } else {
          MergeIntoNothing(n.children[k]);
          NoLinksToFollow(n.children[k]);
        }
      }
      MergedDirectory(d, n, m);
    }
  }

  ghost predicate ChildIsTree(d: Node, n: Node, m: Node, k: string)
    requires d.Dir? && n.Dir? && m.Dir? && k in n.children && k in m.children
  {
    && (m.children[k] == n.children[k] <==> k !in d.children || Within(d.children[k], n.children[k], false))
    && (Followed(m.children[k]) == Some(n.children[k]) <==> k !in d.children || Within(d.children[k], n.children[k], true))
  }

  lemma MergedDirectory(d: Node, n: Node, m: Node)
    requires d.Dir? && n.Dir? && m.Dir? && m.children.Keys == d.children.Keys + n.children.Keys
    requires forall k | k in n.children :: ChildIsTree(d, n, m, k)
    ensures m == n <==> Within(d, n, false)
    ensures Followed(m) == Some(n) <==> Within(d, n, true)
  {
    if Within(d, n, false) { assert m.children == n.children; }
    FollowedDirectory(m, n);
  }

  lemma FollowedDirectory(m: Node, n: Node)
    requires m.Dir? && n.Dir?
    ensures Followed(m) == Some(n) <==>
            m.children.Keys == n.children.Keys && forall k | k in m.children :: Followed(m.children[k]) == Some(n.children[k])
  {
    if m.children.Keys == n.children.Keys && forall k | k in m.children :: Followed(m.children[k]) == Some(n.children[k]) {
      assert Followed(m).Some?;
      assert Followed(m).value.children == n.children;
    }
  }

  lemma WalkOverwrites(n: Node, path: Path, excludes: seq<Path>, x: string, prior: Node)
    requires n.Dir? && !IsExcluded(path, excludes) && prior.File? && x in n.children
    requires Kept(n.children[x], path + [x], excludes).Some? && Kept(n.children[x], path + [x], excludes).value.File?
    ensures PutAll(Some(Dir(map[x := prior])), WalkEntries(n, path, excludes)) == Some(Kept(n, path, excludes))
  {
    var d, kept := Dir(map[x := prior]), Kept(n, path, excludes).value;
    WalkMerges(n, path, excludes, Some(d));
    KeptHasNoLinks(n, path, excludes);
    MergesIffFits(d, kept);
    MergeIsTreeIff(d, kept);
  }

  // --- Hashing the rebuilt tree ---

  /** Everything the excludes at the new place remove was removed at the old one. */
  ghost predicate ExcludesNoMore(path: Path, excludes: seq<Path>, path': Path, excludes': seq<Path>) {
    forall r: Path :: IsExcluded(path' + r, excludes') ==> IsExcluded(path + r, excludes)
  }

  lemma ExcludesBelow(path: Path, excludes: seq<Path>, path': Path, excludes': seq<Path>, k: string)
    requires ExcludesNoMore(path, excludes, path', excludes')
    ensures ExcludesNoMore(path + [k], excludes, path' + [k], excludes')
  {
    forall r: Path | IsExcluded(path' + [k] + r, excludes') ensures IsExcluded(path + [k] + r, excludes) {
      assert path' + [k] + r == path' + ([k] + r) && path + [k] + r == path + ([k] + r);
    }
  }

  lemma PlaceIsIncluded(path: Path, excludes: seq<Path>, path': Path, excludes': seq<Path>)
    requires ExcludesNoMore(path, excludes, path', excludes') && !IsExcluded(path, excludes)
    ensures !IsExcluded(path', excludes')
  {
    assert path + [] == path && path' + [] == path';
  }

  /** The kept tree, walked at another place with other excludes that remove
      nothing more, yields the same bytes. */
  lemma {:induction false} KeptHasSameBytes(n: Node, path: Path, excludes: seq<Path>, path': Path, excludes': seq<Path>)
    requires Kept(n, path, excludes).Some? && ExcludesNoMore(path, excludes, path', excludes')
    ensures WalkBytes(Kept(n, path, excludes).value, path', excludes') == WalkBytes(n, path, excludes)
    decreases n
  {
    PlaceIsIncluded(path, excludes, path', excludes');
    if n.Dir? {
      var kept := Kept(n, path, excludes).value;
      forall k | k in n.children ensures SameChildBytes(n, path, excludes, kept, path', excludes', k) {
        if k in kept.children {
          ExcludesBelow(path, excludes, path', excludes', k);
          KeptHasSameBytes(n.children[k], path + [k], excludes, path' + [k], excludes');
        }
      }
      DirectoryHasSameBytes(n, path, excludes, kept, path', excludes');
    }
  }

  lemma DirectoryHasSameBytes(n: Node, path: Path, excludes: seq<Path>, kept: Node, path': Path, excludes': seq<Path>)
    requires n.Dir? && kept.Dir? && kept.children.Keys <= n.children.Keys
    requires forall k | k in n.children :: SameChildBytes(n, path, excludes, kept, path', excludes', k)
    ensures Flatten(ByteParts(kept, path', excludes')) == Flatten(ByteParts(n, path, excludes))
  {
    var m := map k | k in n.children :: WalkBytes(n.children[k], path + [k], excludes);
    var ks, js := SortedKeys(n.children.Keys), SortedKeys(kept.children.Keys);
    forall i | 0 <= i < |ks| ensures ks[i] in m && ByteParts(n, path, excludes)[i] == m[ks[i]] { assert ks[i] in ks; }
    forall i | 0 <= i < |js| ensures js[i] in m && ByteParts(kept, path', excludes')[i] == m[js[i]] {
      assert js[i] in js;
      assert SameChildBytes(n, path, excludes, kept, path', excludes', js[i]);
    }
    forall k | k in n.children && k !in kept.children ensures m[k] == [] {
      assert SameChildBytes(n, path, excludes, kept, path', excludes', k);
    }
    FlattenIsGathered(m, ks, ByteParts(n, path, excludes));
    FlattenIsGathered(m, js, ByteParts(kept, path', excludes'));
    SparseGathered(m, n.children.Keys, kept.children.Keys);
  }

  ghost predicate SameChildBytes(n: Node, path: Path, excludes: seq<Path>, kept: Node, path': Path, excludes': seq<Path>, k: string)
    requires n.Dir? && kept.Dir? && k in n.children
  {
    WalkBytes(n.children[k], path + [k], excludes) ==
    if k in kept.children then WalkBytes(kept.children[k], path' + [k], excludes') else []
  }

  /** What the names contribute, one after the other. */
  function Gathered(m: map<string, seq<Byte>>, ks: seq<string>): seq<Byte>
    requires forall i | 0 <= i < |ks| :: ks[i] in m
  {
    if ks == [] then [] else m[ks[0]] + Gathered(m, ks[1..])
  }

  lemma {:induction false} FlattenIsGathered(m: map<string, seq<Byte>>, ks: seq<string>, parts: seq<seq<Byte>>)
    requires |parts| == |ks| && forall i | 0 <= i < |ks| :: ks[i] in m && parts[i] == m[ks[i]]
    ensures Flatten(parts) == Gathered(m, ks)
    decreases |ks|
  {
    if ks != [] { FlattenIsGathered(m, ks[1..], parts[1..]); }
  }

  /** Leaving out names that contribute nothing does not change the concatenation in name order. */
  lemma {:induction false} SparseGathered(m: map<string, seq<Byte>>, s: set<string>, t: set<string>)
    requires t <= s <= m.Keys && forall k | k in s && k !in t :: m[k] == []
    ensures (forall k | k in SortedKeys(s) :: k in m) && (forall k | k in SortedKeys(t) :: k in m)
    ensures Gathered(m, SortedKeys(s)) == Gathered(m, SortedKeys(t))
    decreases |s|
  {
    if s == {} {
      assert t == {};
    } else {
      var k := Least(s);
      assert SortedKeys(s)[1..] == SortedKeys(s - {k});
      if k in t {
        LeastIsUnique(t, k, Least(t));
        assert SortedKeys(t)[1..] == SortedKeys(t - {k});
        SparseGathered(m, s - {k}, t - {k});
      } else {
        SparseGathered(m, s - {k}, t);
      }
    }
  }

  // --- Which files a walk archives ---

  lemma ExcludedStaysExcluded(path: Path, more: Path, excludes: seq<Path>)
    requires IsExcluded(path, excludes)
    ensures IsExcluded(path + more, excludes)
  {
    var e :| e in excludes && IsUnder(path, e);
    assert (path + more)[..|e|] == path[..|e|];
    assert IsUnder(path + more, e);
  }

  /** A walk keeps a file exactly when no exclude covers it. */
  lemma {:induction false} KeptFile(n: Node, path: Path, excludes: seq<Path>, name: Path, data: seq<Byte>)
    ensures (Kept(n, path, excludes).Some? && Lookup(Kept(n, path, excludes).value, name) == Some(File(data))) <==>
            (Lookup(n, name) == Some(File(data)) && !IsExcluded(path + name, excludes))
    decreases n
  {
    if name == [] {
      assert path + name == path;
    } else if IsExcluded(path, excludes) {
      ExcludedStaysExcluded(path, name, excludes);
    } else if n.Dir? && name[0] in n.children {
      var k := name[0];
      KeptFile(n.children[k], path + [k], excludes, name[1..], data);
      assert path + [k] + name[1..] == path + name;
    }
  }

  lemma InPrefixAll(k: string, entries: seq<Entry>, name: Path, data: seq<Byte>)
    ensures FileEntry(name, data) in PrefixAll(k, entries) <==>
            name != [] && name[0] == k && FileEntry(name[1..], data) in entries
  {
    var r := PrefixAll(k, entries);
    if FileEntry(name, data) in r {
      var i :| 0 <= i < |r| && r[i] == FileEntry(name, data);
      assert r[i] == Prefixed(k, entries[i]) && entries[i].FileEntry? && name == [k] + entries[i].name;
      assert name[1..] == entries[i].name;
    }
    if name != [] && name[0] == k && FileEntry(name[1..], data) in entries {
      var i :| 0 <= i < |entries| && entries[i] == FileEntry(name[1..], data);
      assert [k] + name[1..] == name;
      assert r[i] == FileEntry(name, data);
    }
  }

  /** A walk archives exactly the files of the tree it keeps. */
  lemma {:induction false} WalkHoldsKept(n: Node, path: Path, excludes: seq<Path>, name: Path, data: seq<Byte>)
    ensures FileEntry(name, data) in WalkEntries(n, path, excludes) <==>
            Kept(n, path, excludes).Some? && Lookup(Kept(n, path, excludes).value, name) == Some(File(data))
    decreases n
  {
    if !IsExcluded(path, excludes) && n.Dir? {
      var parts, ks := EntryParts(n, path, excludes), SortedKeys(n.children.Keys);
      InFlatten(parts, FileEntry(name, data));
      forall i | 0 <= i < |parts|
        ensures FileEntry(name, data) in parts[i] <==> name != [] && name[0] == ks[i] && ChildKeeps(n, path, excludes, name, data)
      {
        assert ks[i] in ks;
        InPrefixAll(ks[i], WalkEntries(n.children[ks[i]], path + [ks[i]], excludes), name, data);
        if name != [] && name[0] == ks[i] { WalkHoldsKept(n.children[ks[i]], path + [ks[i]], excludes, name[1..], data); }
      }
      if name != [] && name[0] in n.children {
        assert name[0] in ks;
        var i :| 0 <= i < |ks| && ks[i] == name[0];
        assert FileEntry(name, data) in parts[i] <==> ChildKeeps(n, path, excludes, name, data);
      }
    }
  }

  predicate ChildKeeps(n: Node, path: Path, excludes: seq<Path>, name: Path, data: seq<Byte>)
    requires n.Dir? && name != []
  {
    name[0] in n.children &&
    var kept := Kept(n.children[name[0]], path + [name[0]], excludes);
    kept.Some? && Lookup(kept.value, name[1..]) == Some(File(data))
  }
}

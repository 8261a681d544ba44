/**
 Archive extraction with rollback (internal/domain/filemanager/filemanager.go).

 The directory tree is a map from component sequences to nodes.  Every call on the
 disk may fail on its own account (`if *`); a failed write may have written a part.
 `faults` counts these failures, those of reading the archive included.
 extractZip and extractTarGz record every node they make or open and, unless they
 reach the end of the archive, remove the record backwards.
 */
module ArchiveExtract {
  import opened Common

  type Byte = x: int | 0 <= x < 256

  type Path = seq<string>

  datatype Node = Dir | File(content: seq<Byte>)

  type Tree = map<Path, Node>

  const MAX_EXTRACT_SIZE: nat := 1024 * 1024 * 1024
  const MAX_EXTRACT_FILE_COUNT: nat := 10000

  function Parent(p: Path): Path
    requires p != []
  {
    p[..|p| - 1]
  }

  /** The path `i` levels up. */
  function Up(p: Path, i: nat): Path
    requires i <= |p|
  {
    p[..|p| - i]
  }

  /** Every node but the root hangs in a directory. */
  ghost predicate Rooted(t: Tree) {
    && [] in t && t[[]].Dir?
    && forall p :: p in t && p != [] ==> Parent(p) in t && t[Parent(p)].Dir?
  }

  /** Nothing on the way down to `p` is a file, `p` included. */
  predicate Fits(t: Tree, p: Path) {
    forall k | 0 <= k <= |p| :: p[..k] in t ==> t[p[..k]].Dir?
  }

  /** There is a directory for `p` to be made in. */
  predicate Holds(t: Tree, p: Path) {
    p != [] && Parent(p) in t && t[Parent(p)].Dir?
  }

  ghost predicate HasChild(t: Tree, p: Path) {
    exists c :: c in t && c != [] && Parent(c) == p
  }

  ghost predicate Removable(t: Tree, p: Path) {
    p in t && p != [] && !HasChild(t, p)
  }

  // ---- The disk ----

  datatype StatResult = IsDir | NotDir | NotExist | StatFault
  datatype MkdirResult = Made | Exists | MkdirFault
  datatype RemoveResult = Removed | Refused | RemoveFault

  class Disk {
    var tree: Tree
    ghost var written: nat
    ghost var faults: nat

    method Stat(p: Path) returns (r: StatResult)
      modifies this`faults
      ensures faults >= old(faults) && (faults == old(faults) && Fits(tree, p) ==> r.IsDir? || r.NotExist?)
      ensures r.IsDir? ==> p in tree && tree[p].Dir?
      ensures r.NotDir? ==> p in tree && tree[p].File?
      ensures r.NotExist? ==> p !in tree
    {
      if * {
        faults := faults + 1;
        return StatFault;
      }
      if p !in tree {
        // A file in the middle of the path is an error of its own kind, not "does not exist".
        if !Fits(tree, p) {
          return StatFault;
        }
        return NotExist;
      }
      assert p[..|p|] == p;
      r := if tree[p].Dir? then IsDir else NotDir;
    }

    method Mkdir(p: Path) returns (r: MkdirResult)
      modifies this`tree, this`faults
      ensures faults >= old(faults)
      ensures r.MkdirFault? ==> faults > old(faults) || !Holds(old(tree), p)
      ensures r.Made? ==> p !in old(tree) && p != [] && Parent(p) in old(tree) && old(tree)[Parent(p)].Dir?
      ensures r.Exists? ==> p in old(tree)
      ensures tree == if r.Made? then old(tree)[p := Dir] else old(tree)
    {
      if * {
        faults := faults + 1;
        return MkdirFault;
      }
      if p in tree {
        return Exists;
      }
      if p == [] || Parent(p) !in tree || tree[Parent(p)].File? {
        return MkdirFault;
      }
      tree := tree[p := Dir];
      r := Made;
    }

    /** os.OpenFile with O_CREATE|O_TRUNC. */
    method OpenTruncate(p: Path) returns (ok: bool)
      modifies this`tree, this`faults
      ensures faults >= old(faults)
      ensures !ok ==> faults > old(faults) || !Holds(old(tree), p) || (p in old(tree) && old(tree)[p].Dir?)
      ensures ok ==> && p != [] && Parent(p) in old(tree) && old(tree)[Parent(p)].Dir?
                     && (p in old(tree) ==> old(tree)[p].File?)
      ensures tree == if ok then old(tree)[p := File([])] else old(tree)
    {
      if * {
        faults := faults + 1;
        return false;
      }
      if p == [] || Parent(p) !in tree || tree[Parent(p)].File? || (p in tree && tree[p].Dir?) {
        return false;
      }
      tree := tree[p := File([])];
      ok := true;
    }

    method Append(p: Path, data: seq<Byte>) returns (n: nat, ok: bool)
      requires p in tree && tree[p].File?
      modifies this
      ensures n <= |data| && (ok ==> n == |data|)
      ensures faults >= old(faults) && (!ok ==> faults > old(faults))
      ensures tree == old(tree)[p := File(old(tree)[p].content + data[..n])]
      ensures written == old(written) + n
    {
      n := |data|;
      ok := true;
      if * {
        n :| 0 <= n <= |data|;
        ok := false;
        faults := faults + 1;
      }
      tree := tree[p := File(tree[p].content + data[..n])];
      written := written + n;
    }

    method Remove(p: Path) returns (r: RemoveResult)
      modifies this`tree
      ensures r.Removed? ==> Removable(old(tree), p)
      ensures r.Refused? ==> !Removable(old(tree), p)
      ensures tree == if r.Removed? then old(tree) - {p} else old(tree)
    {
      if * {
        return RemoveFault;
      }
      if p !in tree || p == [] || exists c | c in tree :: c != [] && Parent(c) == p {
        return Refused;
      }
      tree := tree - {p};
      r := Removed;
    }
  }

  // ---- What the operations compute on trees ----

  /** The tree after mkdir -p. */
  function MadeDirs(t: Tree, p: Path): Tree
    decreases |p|
  {
    if p == [] || p in t then t else MadeDirs(t, Parent(p))[p := Dir]
  }

  datatype Kind = Directory | Regular | Symlink | HardLink | Special

  /** An archive entry; `nameOk` says that its name passed the traversal and confinement checks. */
  datatype Entry = Entry(nameOk: bool, rel: Path, kind: Kind, chunks: seq<seq<Byte>>)

  datatype Format = Zip | TarGz

  /** Whether an entry's bytes are written to a file: extractZip writes whatever is no directory. */
  predicate IsFile(format: Format, kind: Kind) {
    if format.Zip? then !kind.Directory? && !kind.Symlink? else kind.Regular?
  }

  predicate Forbidden(format: Format, kind: Kind) {
    kind.Symlink? || (format.TarGz? && kind.HardLink?)
  }

  function Placed(t: Tree, format: Format, dest: Path, e: Entry): Tree {
    var p := dest + e.rel;
    if e.kind.Directory? then MadeDirs(t, p)
    else if IsFile(format, e.kind) && p != [] then MadeDirs(t, Parent(p))[p := File(Concat(e.chunks))]
    else t
  }

  /** The tree an archive unpacks to, entry after entry. */
  function Unpacked(t: Tree, format: Format, dest: Path, entries: seq<Entry>): Tree {
    if entries == [] then t
    else Placed(Unpacked(t, format, dest, entries[..|entries| - 1]), format, dest, entries[|entries| - 1])
  }

  /** The entry can be placed in the tree: directories and files do not get in each other's way. */
  predicate EntryFits(t: Tree, base: Path, format: Format, dest: Path, e: Entry) {
    var p := dest + e.rel;
    if e.kind.Directory? then base <= p && Fits(t, p)
    else if IsFile(format, e.kind) then FileFits(t, base, p)
    else true
  }

  /** The same for a file and the directories above it. */
  predicate FileFits(t: Tree, base: Path, p: Path) {
    p != [] && base <= Parent(p) && Fits(t, Parent(p)) && (p in t ==> t[p].File?)
  }

  predicate AllFit(t: Tree, base: Path, format: Format, dest: Path, entries: seq<Entry>) {
    entries == [] ||
    (var rest, last := entries[..|entries| - 1], entries[|entries| - 1];
     AllFit(t, base, format, dest, rest) && EntryFits(Unpacked(t, format, dest, rest), base, format, dest, last))
  }

  /** How many bytes an entry, and the archive, unpack to. */
  function Size(format: Format, e: Entry): nat {
    if IsFile(format, e.kind) then |Concat(e.chunks)| else 0
  }

  function Bytes(format: Format, entries: seq<Entry>): nat {
    if entries == [] then 0
    else
      var last := entries[|entries| - 1];
      Bytes(format, entries[..|entries| - 1]) + Size(format, last)
  }

  /** Nothing about the archive stands in the way of unpacking it here. */
  predicate Sound(t: Tree, base: Path, format: Format, dest: Path, entries: seq<Entry>) {
    Acceptable(format, entries) && AllFit(t, base, format, dest, entries) && Bytes(format, entries) <= MAX_EXTRACT_SIZE
  }

  /** How many entries are unpacked before something about the archive stops the extraction. */
  function Reach(t: Tree, base: Path, format: Format, dest: Path, entries: seq<Entry>): (n: nat)
    ensures n <= |entries|
  {
    if entries == [] || Sound(t, base, format, dest, entries) then |entries|
    else Reach(t, base, format, dest, entries[..|entries| - 1])
  }

  /** The n-th entry passes the checks and its file, if it is one, can be opened. */
  predicate Opens(t: Tree, base: Path, format: Format, dest: Path, entries: seq<Entry>, n: nat)
    requires n < |entries|
  {
    && Acceptable(format, entries[..n + 1])
    && EntryFits(Unpacked(t, format, dest, entries[..n]), base, format, dest, entries[n])
  }

  /** How many entries are opened if nothing fails, that over which the size limit is passed included. */
  function Opened(t: Tree, base: Path, format: Format, dest: Path, entries: seq<Entry>): (n: nat)
    ensures n <= |entries|
  {
    var n := Reach(t, base, format, dest, entries);
    if n < |entries| && Opens(t, base, format, dest, entries, n) then n + 1 else n
  }

  /** The old files the first `n` entries name: opening them truncates and records them. */
  function Lost(t: Tree, format: Format, dest: Path, entries: seq<Entry>, n: nat): set<Path>
    requires n <= |entries|
  {
    Targets(format, dest, entries[..n]) * t.Keys
  }

  /** None of the first `n` entries is the file of an old node. */
  predicate NamesNoOldFile(t: Tree, format: Format, dest: Path, entries: seq<Entry>, n: nat)
    requires n <= |entries|
  {
    forall i | 0 <= i < n :: IsFile(format, entries[i].kind) ==> dest + entries[i].rel !in t
  }

  /** The files the archive names. */
  function Targets(format: Format, dest: Path, entries: seq<Entry>): set<Path> {
    set e | e in entries && IsFile(format, e.kind) :: dest + e.rel
  }

  predicate Acceptable(format: Format, entries: seq<Entry>) {
    && |entries| <= MAX_EXTRACT_FILE_COUNT
    && forall e :: e in entries ==> e.nameOk && !Forbidden(format, e.kind)
  }

  /** The recorded nodes that existed before: files the extraction opened and truncated. */
  function Overwritten(t0: Tree, created: seq<Path>): set<Path> {
    set p | p in created && p in t0
  }

  /** The rollback: the record is removed from its end; what cannot be removed stays. */
  ghost function Undo(t: Tree, created: seq<Path>): Tree
    decreases |created|
  {
    if created == [] then t
    else
      var last := created[|created| - 1];
      Undo(if Removable(t, last) then t - {last} else t, created[..|created| - 1])
  }

  /** `created` records everything in which `t` differs from `t0`, parents before children. */
  ghost predicate Recorded(t0: Tree, t: Tree, created: seq<Path>) {
    && Rooted(t)
    && (forall p :: p in created ==> p != [] && p in t)
    && (forall p :: p in t && p !in created ==> p in t0 && t[p] == t0[p])
    && (forall p :: p in t0 ==> p in t && (t[p].Dir? <==> t0[p].Dir?))
    && (forall p :: p in created && p in t0 ==> t0[p].File?)
    && ParentsFirst(created)
  }

  ghost predicate ParentsFirst(created: seq<Path>) {
    forall j, i :: 0 <= j < i < |created| && created[j] != [] ==> Parent(created[j]) != created[i]
  }

  lemma {:induction false} UndoReaches(goal: Tree, t: Tree, created: seq<Path>)
    requires forall p :: p in goal ==> p in t && t[p] == goal[p]
    requires forall p :: p in goal && p != [] ==> Parent(p) in goal
    requires forall p :: p in t ==> p in goal || p in created
    requires forall p :: p in created ==> p != [] && p !in goal
    requires ParentsFirst(created)
    ensures Undo(t, created) == goal
    decreases |created|
  {
    if created == [] {
      assert t == goal;
    } else {
      var n := |created| - 1;
      var last, rest := created[n], created[..n];
      assert created == rest + [last];
      assert last in created && forall p :: p in rest ==> p in created;
      forall c | c in t && c != [] ensures Parent(c) != last {
        if c in created {
          var j :| 0 <= j < |created| && created[j] == c;
          assert j == n ==> |Parent(c)| < |last|;
        }
      }
      UndoReaches(goal, if Removable(t, last) then t - {last} else t, rest);
    }
  }

  /**
   Rolling a recorded extraction back leaves the old tree without the files the
   extraction had overwritten; if it had overwritten none, it leaves the old tree.
   */
  lemma UndoRestores(t0: Tree, t: Tree, created: seq<Path>)
    requires Rooted(t0) && Recorded(t0, t, created)
    ensures Undo(t, created) == t0 - Overwritten(t0, created)
    ensures Undo(t, created) == t0 <==> Overwritten(t0, created) == {}
  {
    UndoReaches(t0 - Overwritten(t0, created), t, created);
  }

  lemma NewNodeHasNoChild(t: Tree, p: Path)
    requires Rooted(t) && (p in t ==> t[p].File?)
    ensures !HasChild(t, p)
  {
  }

  lemma ParentsStayFirst(t: Tree, created: seq<Path>, p: Path)
    requires Rooted(t) && ParentsFirst(created) && (p in t ==> t[p].File?)
    requires forall q :: q in created ==> q in t
    ensures ParentsFirst(created + [p])
  {
    var grown := created + [p];
    forall j, i | 0 <= j < i < |grown| && grown[j] != [] ensures Parent(grown[j]) != grown[i] {
      assert grown[j] in created;
      if i == |created| {
        NewNodeHasNoChild(t, p);
      }
    }
  }

  lemma StaysRooted(t: Tree, p: Path, node: Node)
    requires Rooted(t) && p != [] && Parent(p) in t && t[Parent(p)].Dir?
    requires p in t ==> t[p].File? && node.File?
    ensures Rooted(t[p := node])
  {
  }

  /** Making a directory, or opening a file, and writing it down keeps the record complete. */
  lemma RecordingKeeps(t0: Tree, t: Tree, created: seq<Path>, p: Path, node: Node)
    requires Recorded(t0, t, created)
    requires p != [] && Parent(p) in t && t[Parent(p)].Dir?
    requires p in t ==> t[p].File? && node.File?
    ensures Recorded(t0, t[p := node], created + [p])
    ensures p in t0 ==> p in t && t0[p].File?
  {
    hide ParentsFirst, Rooted, Parent;
    ParentsStayFirst(t, created, p);
    StaysRooted(t, p, node);
    var more, u := created + [p], t[p := node];
    assert forall q :: q in more <==> q in created || q == p;
    assert forall q :: q in u <==> q in t || q == p;
    assert forall q :: q in u && q != p ==> u[q] == t[q];
  }

  lemma OverwrittenGrows(t0: Tree, created: seq<Path>, p: Path)
    ensures Overwritten(t0, created + [p]) == Overwritten(t0, created) + if p in t0 then {p} else {}
  {
  }

  lemma WritingKeeps(t0: Tree, t: Tree, created: seq<Path>, p: Path, content: seq<Byte>)
    requires Recorded(t0, t, created) && p in created && t[p].File?
    ensures Recorded(t0, t[p := File(content)], created)
  {
  }

  /** `toCreate` is `path` and its missing ancestors, deepest first. */
  ghost predicate Missing(t: Tree, path: Path, toCreate: seq<Path>)
    ensures Missing(t, path, toCreate) ==> |toCreate| <= |path|
  {
    && |toCreate| <= |path|
    && forall i :: 0 <= i < |toCreate| ==> toCreate[i] == Up(path, i) && Up(path, i) !in t
  }

  lemma MadeDirsStep(t: Tree, path: Path, toCreate: seq<Path>, i: nat)
    requires Missing(t, path, toCreate) && i < |toCreate|
    ensures i < |path| && toCreate[i] == Up(path, i)
    ensures MadeDirs(t, Up(path, i)) == MadeDirs(t, Up(path, i + 1))[Up(path, i) := Dir]
    ensures forall k :: 0 <= k < i ==> Up(path, k) != Up(path, i)
  {
    assert Up(path, i) != [] && Parent(Up(path, i)) == Up(path, i + 1);
    assert forall k :: 0 <= k < i ==> |Up(path, k)| > |Up(path, i)|;
  }

  lemma MissingEnds(t: Tree, path: Path, toCreate: seq<Path>)
    requires Missing(t, path, toCreate) && Up(path, |toCreate|) in t
    ensures |toCreate| <= |path| && Up(path, 0) == path
    ensures MadeDirs(t, Up(path, |toCreate|)) == t
    ensures forall k :: 0 <= k < |toCreate| ==> Up(path, k) !in t
  {
  }

  lemma CopiedNone(chunks: seq<seq<Byte>>)
    ensures Concat(chunks[..0]) == []
  {
  }

  lemma CopiedStep(chunks: seq<seq<Byte>>, i: nat)
    requires i < |chunks|
    ensures Concat(chunks[..i + 1]) == Concat(chunks[..i]) + chunks[i][..|chunks[i]|]
  {
    ConcatSnoc(chunks[..i], chunks[i]);
    assert chunks[..i + 1] == chunks[..i] + [chunks[i]];
  }

  lemma CopiedPart(chunks: seq<seq<Byte>>, i: nat)
    requires i <= |chunks|
    ensures |Concat(chunks[..i])| <= |Concat(chunks)|
  {
    ConcatAppend(chunks[..i], chunks[i..]);
    assert chunks == chunks[..i] + chunks[i..];
  }

  lemma FitsAbove(t: Tree, p: Path, i: nat)
    requires i <= |p|
    ensures Fits(t, p) ==> Fits(t, Up(p, i))
  {
    var q := Up(p, i);
    assert forall k :: 0 <= k <= |q| ==> q[..k] == p[..k];
  }

  lemma HoldsBelow(t: Tree, p: Path, i: nat)
    requires i < |p| && Up(p, i + 1) in t && t[Up(p, i + 1)].Dir?
    ensures Holds(t, Up(p, i))
  {
    assert Parent(Up(p, i)) == Up(p, i + 1);
  }

  lemma {:induction false} MadeDirsAdds(t: Tree, p: Path)
    ensures forall q :: q in MadeDirs(t, p) ==> q in t || |q| <= |p|
    decreases |p|
  {
    if p != [] && p !in t {
      MadeDirsAdds(t, Parent(p));
    }
  }

  /** Making the directories above a path does not make the path. */
  lemma NotMade(t: Tree, p: Path)
    requires p != []
    ensures (p in t ==> t[p].File?) ==> (p in MadeDirs(t, Parent(p)) ==> MadeDirs(t, Parent(p))[p].File?)
  {
    MadeDirsAdds(t, Parent(p));
    MadeDirsKeeps(t, Parent(p));
  }

  /** What it takes for one more entry. */
  lemma SoundStep(t: Tree, base: Path, format: Format, dest: Path, entries: seq<Entry>, n: nat)
    requires n < |entries|
    ensures Bytes(format, entries[..n + 1]) == Bytes(format, entries[..n]) + Size(format, entries[n])
    ensures Acceptable(format, entries[..n + 1]) <==>
              && Acceptable(format, entries[..n])
              && n < MAX_EXTRACT_FILE_COUNT && entries[n].nameOk && !Forbidden(format, entries[n].kind)
    ensures Sound(t, base, format, dest, entries[..n + 1]) <==>
              && Sound(t, base, format, dest, entries[..n]) && Acceptable(format, entries[..n + 1])
              && EntryFits(Unpacked(t, format, dest, entries[..n]), base, format, dest, entries[n])
              && Bytes(format, entries[..n]) + Size(format, entries[n]) <= MAX_EXTRACT_SIZE
  {
    hide EntryFits, Unpacked, Size, Forbidden;
    var more := entries[..n + 1];
    assert more[..n] == entries[..n] && more == entries[..n] + [entries[n]];
  }

  lemma {:induction false} SoundPrefix(t: Tree, base: Path, format: Format, dest: Path, entries: seq<Entry>, n: nat)
    requires n <= |entries| && Sound(t, base, format, dest, entries)
    ensures Sound(t, base, format, dest, entries[..n])
    decreases |entries|
  {
    hide Sound, Acceptable, Bytes, AllFit;
    if n < |entries| {
      var m := |entries| - 1;
      assert entries[..m + 1] == entries;
      SoundStep(t, base, format, dest, entries, m);
      SoundPrefix(t, base, format, dest, entries[..m], n);
      assert entries[..m][..n] == entries[..n];
    } else {
      assert entries[..n] == entries;
    }
  }

  lemma {:induction false} ReachAtLeast(t: Tree, base: Path, format: Format, dest: Path, entries: seq<Entry>, n: nat)
    requires n <= |entries| && Sound(t, base, format, dest, entries[..n])
    ensures Reach(t, base, format, dest, entries) >= n
    decreases |entries|
  {
    hide Sound;
    if n < |entries| && !Sound(t, base, format, dest, entries) {
      assert entries[..|entries| - 1][..n] == entries[..n];
      ReachAtLeast(t, base, format, dest, entries[..|entries| - 1], n);
    } else {
      assert n == |entries| ==> entries[..n] == entries;
    }
  }

  /** The extraction gets no further than the first entry that spoils the archive. */
  lemma {:induction false} ReachIs(t: Tree, base: Path, format: Format, dest: Path, entries: seq<Entry>, n: nat)
    requires n < |entries| && Sound(t, base, format, dest, entries[..n]) && !Sound(t, base, format, dest, entries[..n + 1])
    ensures Reach(t, base, format, dest, entries) == n
    decreases |entries|
  {
    hide Sound;
    if Sound(t, base, format, dest, entries) {
      SoundPrefix(t, base, format, dest, entries, n + 1);
      assert false;
    }
    var rest := entries[..|entries| - 1];
    if n < |rest| {
      assert rest[..n] == entries[..n] && rest[..n + 1] == entries[..n + 1];
      ReachIs(t, base, format, dest, rest, n);
    } else {
      assert entries[..n] == rest;
    }
  }

  /** Stopping at entry `n`, whose file was opened or not: how many entries were opened. */
  lemma StopsHere(t: Tree, base: Path, format: Format, dest: Path, entries: seq<Entry>, n: nat, hit: bool, clean: bool)
    requires n < |entries| && Sound(t, base, format, dest, entries[..n])
    requires hit ==> Opens(t, base, format, dest, entries, n)
    requires clean ==> !Sound(t, base, format, dest, entries[..n + 1]) && hit == Opens(t, base, format, dest, entries, n)
    ensures var reached := if hit then n + 1 else n;
            && reached <= Opened(t, base, format, dest, entries)
            && (clean ==> reached == Opened(t, base, format, dest, entries) && !Sound(t, base, format, dest, entries))
  {
    hide Sound, Opens;
    ReachAtLeast(t, base, format, dest, entries, n);
    if clean {
      ReachIs(t, base, format, dest, entries, n);
    }
  }

  lemma OpensIff(t: Tree, base: Path, format: Format, dest: Path, entries: seq<Entry>, n: nat)
    requires n < |entries|
    ensures Opens(t, base, format, dest, entries, n) <==>
              && Acceptable(format, entries[..n + 1])
              && EntryFits(Unpacked(t, format, dest, entries[..n]), base, format, dest, entries[n])
  {
  }

  lemma OpenedReaches(t: Tree, base: Path, format: Format, dest: Path, entries: seq<Entry>)
    ensures Reach(t, base, format, dest, entries) <= Opened(t, base, format, dest, entries)
  {
  }

  lemma LostStep(t: Tree, format: Format, dest: Path, entries: seq<Entry>, n: nat)
    requires n < |entries|
    ensures Lost(t, format, dest, entries, n + 1)
         == Lost(t, format, dest, entries, n)
            + if IsFile(format, entries[n].kind) && dest + entries[n].rel in t then {dest + entries[n].rel} else {}
  {
    hide IsFile;
    assert entries[..n + 1] == entries[..n] + [entries[n]];
    assert Targets(format, dest, entries[..n + 1])
        == Targets(format, dest, entries[..n]) + if IsFile(format, entries[n].kind) then {dest + entries[n].rel} else {};
  }

  /**
   What a caller can tell beforehand: a failure in which nothing faults restores the old
   tree if and only if no entry up to the one that spoils the archive is the file of an
   old node; and just then every failure does, however few entries were opened.
   */
  lemma FailureRestoresIff(t: Tree, base: Path, format: Format, dest: Path, entries: seq<Entry>)
    ensures var last := Opened(t, base, format, dest, entries);
            && (t - Lost(t, format, dest, entries, last) == t <==> NamesNoOldFile(t, format, dest, entries, last))
            && ((forall n :: 0 <= n <= last ==> t - Lost(t, format, dest, entries, n) == t) <==>
                  NamesNoOldFile(t, format, dest, entries, last))
  {
    var last := Opened(t, base, format, dest, entries);
    forall n | 0 <= n <= last
      ensures t - Lost(t, format, dest, entries, n) == t <==> NamesNoOldFile(t, format, dest, entries, n)
    {
      NothingLostIff(t, format, dest, entries, n);
    }
    hide Lost, Opened, IsFile;
    if NamesNoOldFile(t, format, dest, entries, last) {
      forall n | 0 <= n <= last ensures t - Lost(t, format, dest, entries, n) == t {
        assert NamesNoOldFile(t, format, dest, entries, n);
      }
    }
  }

  lemma NothingLostIff(t: Tree, format: Format, dest: Path, entries: seq<Entry>, n: nat)
    requires n <= |entries|
    ensures t - Lost(t, format, dest, entries, n) == t <==>
              NamesNoOldFile(t, format, dest, entries, n)
  {
    hide IsFile;
    var lost, some := Lost(t, format, dest, entries, n), entries[..n];
    assert t - lost == t <==> lost == {} by {
      if p :| p in lost {
        assert p in t && p !in t - lost;
      }
    }
    if i :| 0 <= i < n && IsFile(format, entries[i].kind) && dest + entries[i].rel in t {
      assert some[i] in some && dest + some[i].rel in lost;
    }
  }

  /**
   An archive that overwrites an old file and then holds a forbidden entry loses the
   file, nothing failing.
   */
  lemma OverwrittenFileIsLost(t: Tree, base: Path, format: Format, dest: Path, good: Entry, bad: Entry)
    requires Sound(t, base, format, dest, [good]) && Forbidden(format, bad.kind)
    requires IsFile(format, good.kind) && dest + good.rel in t
    ensures !Sound(t, base, format, dest, [good, bad]) && Opened(t, base, format, dest, [good, bad]) == 1
    ensures Lost(t, format, dest, [good, bad], 1) == {dest + good.rel}
  {
    hide Sound, Acceptable, Bytes, EntryFits, Forbidden, IsFile, Unpacked, AllFit;
    var archive := [good, bad];
    assert archive[..1] == [good] && archive[..2] == archive;
    SoundStep(t, base, format, dest, archive, 1);
    ReachIs(t, base, format, dest, archive, 1);
    LostStep(t, format, dest, archive, 0);
    assert archive[..0] == [] && Targets(format, dest, archive[..0]) == {};
  }

  /** A concrete one: the old file `a` is lost. */
  lemma AnOldFileIsLost()
    ensures var t := map[[] := Dir, ["a"] := File([1])];
            var archive := [Entry(true, ["a"], Regular, []), Entry(true, ["b"], Symlink, [])];
            Rooted(t) && Opened(t, [], Zip, [], archive) == 1 && Lost(t, Zip, [], archive, 1) == {["a"]}
  {
    var t := map[[] := Dir, ["a"] := File([1])];
    var good, bad := Entry(true, ["a"], Regular, []), Entry(true, ["b"], Symlink, []);
    NothingYetIsSound(t, [], Zip, [], [good]);
    assert [good][..0] == [] && [good][..1] == [good];
    SoundStep(t, [], Zip, [], [good], 0);
    AFits(t, good);
    assert Unpacked(t, Zip, [], []) == t && Bytes(Zip, []) == 0 && Size(Zip, good) == 0;
    hide Sound, Acceptable, Bytes, EntryFits, Opened, Lost;
    OverwrittenFileIsLost(t, [], Zip, [], good, bad);
    assert [] + ["a"] == ["a"];
  }

  lemma AFits(t: Tree, e: Entry)
    requires t == map[[] := Dir, ["a"] := File([1])] && e.rel == ["a"] && e.kind.Regular?
    ensures EntryFits(t, [], Zip, [], e)
  {
    assert [] + ["a"] == ["a"] && Parent(["a"]) == [];
  }

  /** What becomes of the kinds: made a directory, written to a file, refused, or passed over. */
  lemma KindsOf(format: Format, kind: Kind)
    ensures Forbidden(format, kind) <==> kind.Symlink? || (format.TarGz? && kind.HardLink?)
    ensures IsFile(format, kind) <==> kind.Regular? || (format.Zip? && (kind.HardLink? || kind.Special?))
  {
  }

  lemma UnpackingStarts(t: Tree, format: Format, dest: Path, entries: seq<Entry>)
    requires Rooted(t)
    ensures Recorded(t, t, []) && Overwritten(t, []) == {}
    ensures Unpacked(t, format, dest, entries[..0]) == t && Acceptable(format, entries[..0])
    ensures Bytes(format, entries[..0]) == 0 && Lost(t, format, dest, entries, 0) == {}
  {
  }

  lemma NothingYetIsSound(t: Tree, base: Path, format: Format, dest: Path, entries: seq<Entry>)
    ensures Sound(t, base, format, dest, entries[..0])
  {
  }

  lemma UnpackingSteps(t: Tree, format: Format, dest: Path, entries: seq<Entry>, n: nat)
    requires n < |entries|
    ensures Unpacked(t, format, dest, entries[..n + 1])
         == Placed(Unpacked(t, format, dest, entries[..n]), format, dest, entries[n])
  {
    assert entries[..n + 1][..n] == entries[..n];
  }

  /** What is opened and fits lies in a tree of directories. */
  lemma DirsFit(t: Tree, p: Path, i: nat)
    requires Rooted(t) && i <= |p| && Up(p, i) in t && t[Up(p, i)].Dir? && forall k :: 0 <= k < i ==> Up(p, k) !in t
    ensures Fits(t, p)
  {
    forall k | 0 <= k <= |p| && p[..k] in t ensures t[p[..k]].Dir? {
      var j := |p| - k;
      assert p[..k] == Up(p, j);
      AncestorsAreDirs(t, Up(p, i), j - i);
      assert Up(Up(p, i), j - i) == Up(p, j);
    }
  }

  lemma {:induction false} AncestorsAreDirs(t: Tree, p: Path, i: nat)
    requires Rooted(t) && p in t && t[p].Dir? && i <= |p|
    ensures Up(p, i) in t && t[Up(p, i)].Dir?
  {
    if i > 0 {
      AncestorsAreDirs(t, p, i - 1);
      assert Parent(Up(p, i - 1)) == Up(p, i);
    } else {
      assert Up(p, 0) == p;
    }
  }

  lemma {:induction false} MadeDirsKeeps(t: Tree, p: Path)
    ensures forall q :: q in t ==> q in MadeDirs(t, p) && MadeDirs(t, p)[q] == t[q]
    decreases |p|
  {
    if p != [] && p !in t {
      MadeDirsKeeps(t, Parent(p));
    }
  }

  /** Placing an entry leaves the files it does not name alone. */
  lemma PlacingKeeps(t: Tree, format: Format, dest: Path, e: Entry, q: Path)
    requires q in t && (IsFile(format, e.kind) ==> dest + e.rel != q)
    ensures q in Placed(t, format, dest, e) && Placed(t, format, dest, e)[q] == t[q]
  {
    hide IsFile, Concat;
    var p := dest + e.rel;
    MadeDirsKeeps(t, p);
    if p != [] {
      MadeDirsKeeps(t, Parent(p));
    }
  }

  /** In an unpacked archive a file holds the bytes of the last entry that names it. */
  lemma {:induction false} LastEntryWins(t: Tree, format: Format, dest: Path, entries: seq<Entry>, i: nat)
    requires i < |entries| && IsFile(format, entries[i].kind) && dest + entries[i].rel != []
    requires forall j :: i < j < |entries| && IsFile(format, entries[j].kind) ==> entries[j].rel != entries[i].rel
    ensures dest + entries[i].rel in Unpacked(t, format, dest, entries)
    ensures Unpacked(t, format, dest, entries)[dest + entries[i].rel] == File(Concat(entries[i].chunks))
    decreases |entries|
  {
    FilesAreNoDirectories(format, entries[i].kind);
    hide IsFile, Concat, MadeDirs;
    var n := |entries| - 1;
    if i < n {
      LastEntryWins(t, format, dest, entries[..n], i);
      hide Placed;
      var p, q := dest + entries[n].rel, dest + entries[i].rel;
      assert p[|dest|..] == entries[n].rel && q[|dest|..] == entries[i].rel;
      PlacingKeeps(Unpacked(t, format, dest, entries[..n]), format, dest, entries[n], q);
    }
  }

  lemma FilesAreNoDirectories(format: Format, kind: Kind)
    ensures IsFile(format, kind) ==> !kind.Directory?
  {
  }

  // ---- What an archive unpacks to ----

  /** `q` is `p` or a directory above it. */
  predicate Above(q: Path, p: Path) {
    q <= p
  }

  lemma AboveParent(q: Path, p: Path)
    requires p != []
    ensures Above(q, p) && q != p <==> Above(q, Parent(p))
  {
    if q <= p && q != p {
      assert q == p[..|q|] == Parent(p)[..|q|];
    }
    if q <= Parent(p) {
      assert q == Parent(p)[..|q|] == p[..|q|];
    }
  }

  lemma AboveSelf(p: Path)
    ensures Above(p, p)
  {
  }

  lemma FitsTo(t: Tree, p: Path)
    ensures Fits(t, p) <==> forall q :: q in t && Above(q, p) ==> t[q] == Dir
  {
    if Fits(t, p) {
      forall q | q in t && Above(q, p) ensures t[q] == Dir {
        assert q == p[..|q|];
      }
    }
    if forall q :: q in t && Above(q, p) ==> t[q] == Dir {
      forall k | 0 <= k <= |p| && p[..k] in t ensures t[p[..k]].Dir? {
        assert Above(p[..k], p);
      }
    }
  }

  /** The entry calls for a directory at `q`: it is one, at `q` or below, or a file below `q`. */
  predicate CallsForDir(format: Format, dest: Path, e: Entry, q: Path) {
    var p := dest + e.rel;
    Above(q, p) && (e.kind.Directory? || (IsFile(format, e.kind) && q != p))
  }

  /** The entry calls for a file at `q`. */
  predicate CallsForFile(format: Format, dest: Path, e: Entry, q: Path) {
    IsFile(format, e.kind) && dest + e.rel == q
  }

  lemma {:induction false} MadeDirsIs(t: Tree, p: Path)
    requires Rooted(t) && Fits(t, p)
    ensures Rooted(MadeDirs(t, p))
    ensures forall q :: q in MadeDirs(t, p) <==> q in t || Above(q, p)
    ensures forall q :: q in MadeDirs(t, p) ==> MadeDirs(t, p)[q] == if q in t then t[q] else Dir
    ensures forall q :: Above(q, p) ==> q in MadeDirs(t, p) && MadeDirs(t, p)[q] == Dir
    decreases |p|
  {
    FitsTo(t, p);
    if p in t {
      forall q | Above(q, p) ensures q in t {
        assert Above(p, p) && q == Up(p, |p| - |q|);
        AncestorsAreDirs(t, p, |p| - |q|);
      }
    } else if p == [] {
      assert false;
    } else {
      FitsAbove(t, p, 1);
      MadeDirsIs(t, Parent(p));
      forall q ensures Above(q, p) <==> Above(q, Parent(p)) || q == p {
        AboveParent(q, p);
      }
      StaysRooted(MadeDirs(t, Parent(p)), p, Dir);
    }
  }

  /** One entry more. */
  lemma PlacedIs(t: Tree, base: Path, format: Format, dest: Path, e: Entry)
    requires Rooted(t) && EntryFits(t, base, format, dest, e)
    ensures var u := Placed(t, format, dest, e);
            && Rooted(u)
            && (forall q :: q in u <==> q in t || CallsForDir(format, dest, e, q) || CallsForFile(format, dest, e, q))
            && (forall q :: q in u ==> u[q] == if CallsForFile(format, dest, e, q) then File(Concat(e.chunks))
                                               else if q in t then t[q] else Dir)
            && (forall q :: CallsForDir(format, dest, e, q) ==> u[q] == Dir)
  {
    KindsOf(format, e.kind);
    hide IsFile, Fits, Concat, MadeDirs, Above;
    var p := dest + e.rel;
    if e.kind.Directory? {
      MadeDirsIs(t, p);
    } else if IsFile(format, e.kind) {
      var above := Parent(p);
      MadeDirsIs(t, above);
      forall q ensures Above(q, p) && q != p <==> Above(q, above) {
        AboveParent(q, p);
      }
      AboveSelf(above);
      StaysRooted(MadeDirs(t, above), p, File(Concat(e.chunks)));
    }
  }

  ghost predicate DirAt(format: Format, dest: Path, entries: seq<Entry>, q: Path) {
    exists i :: 0 <= i < |entries| && CallsForDir(format, dest, entries[i], q)
  }

  ghost predicate FileAt(format: Format, dest: Path, entries: seq<Entry>, q: Path) {
    exists i :: 0 <= i < |entries| && CallsForFile(format, dest, entries[i], q)
  }

  lemma OneEntryMore(format: Format, dest: Path, entries: seq<Entry>, q: Path)
    requires entries != []
    ensures var n := |entries| - 1;
            && (DirAt(format, dest, entries, q) <==>
                  DirAt(format, dest, entries[..n], q) || CallsForDir(format, dest, entries[n], q))
            && (FileAt(format, dest, entries, q) <==>
                  FileAt(format, dest, entries[..n], q) || CallsForFile(format, dest, entries[n], q))
  {
    hide CallsForDir, CallsForFile;
    var n := |entries| - 1;
    assert forall i :: 0 <= i < n ==> entries[..n][i] == entries[i];
    if DirAt(format, dest, entries[..n], q) {
      var i :| 0 <= i < n && CallsForDir(format, dest, entries[..n][i], q);
      assert CallsForDir(format, dest, entries[i], q);
    }
    if FileAt(format, dest, entries[..n], q) {
      var i :| 0 <= i < n && CallsForFile(format, dest, entries[..n][i], q);
      assert CallsForFile(format, dest, entries[i], q);
    }
  }

  /**
   The tree a fitting archive unpacks to has the old nodes, every directory an entry calls
   for, those above files included, and every file; the old nodes that no entry names as a
   file are as they were.  LastEntryWins says what the files hold.
   */
  lemma {:induction false} UnpackedIs(t: Tree, base: Path, format: Format, dest: Path, entries: seq<Entry>)
    requires Rooted(t) && AllFit(t, base, format, dest, entries)
    ensures var u := Unpacked(t, format, dest, entries);
            && Rooted(u)
            && (forall q :: q in u <==> q in t || DirAt(format, dest, entries, q) || FileAt(format, dest, entries, q))
            && (forall q :: DirAt(format, dest, entries, q) ==> u[q] == Dir)
            && (forall q :: FileAt(format, dest, entries, q) ==> u[q].File?)
            && (forall q :: q in t && !FileAt(format, dest, entries, q) ==> u[q] == t[q])
    decreases |entries|
  {
    if entries != [] {
      var n := |entries| - 1;
      var before, last := entries[..n], entries[n];
      UnpackedIs(t, base, format, dest, before);
      PlacedIs(Unpacked(t, format, dest, before), base, format, dest, last);
      LastFits(t, base, format, dest, entries);
      forall q
        ensures DirAt(format, dest, entries, q) <==> DirAt(format, dest, before, q) || CallsForDir(format, dest, last, q)
        ensures FileAt(format, dest, entries, q) <==> FileAt(format, dest, before, q) || CallsForFile(format, dest, last, q)
      {
        OneEntryMore(format, dest, entries, q);
      }
      hide DirAt, FileAt, CallsForDir, CallsForFile, Placed, Rooted, EntryFits;
    }
  }

  /** The last entry gets in the way of nothing there. */
  lemma LastFits(t: Tree, base: Path, format: Format, dest: Path, entries: seq<Entry>)
    requires Rooted(t) && AllFit(t, base, format, dest, entries) && entries != []
    ensures var u := Unpacked(t, format, dest, entries[..|entries| - 1]);
            && (forall q :: q in u && CallsForDir(format, dest, entries[|entries| - 1], q) ==> u[q] == Dir)
            && (forall q :: q in u && CallsForFile(format, dest, entries[|entries| - 1], q) ==> u[q].File?)
  {
    hide Unpacked;
    FitsIff(Unpacked(t, format, dest, entries[..|entries| - 1]), base, format, dest, entries[|entries| - 1]);
  }

  /** An entry that is a directory or a file goes inside the base. */
  predicate InsideBase(base: Path, format: Format, dest: Path, e: Entry) {
    var p := dest + e.rel;
    (e.kind.Directory? ==> Above(base, p)) && (IsFile(format, e.kind) ==> Above(base, p) && base != p)
  }

  /** When an entry fits: nothing there is a file where it calls for a directory, or the other way round. */
  lemma FitsIff(t: Tree, base: Path, format: Format, dest: Path, e: Entry)
    ensures EntryFits(t, base, format, dest, e) <==>
              && InsideBase(base, format, dest, e)
              && (forall q :: q in t && CallsForDir(format, dest, e, q) ==> t[q] == Dir)
              && (forall q :: q in t && CallsForFile(format, dest, e, q) ==> t[q].File?)
  {
    KindsOf(format, e.kind);
    var p := dest + e.rel;
    FitsTo(t, p);
    if p != [] {
      FitsTo(t, Parent(p));
      forall q ensures Above(q, p) && q != p <==> Above(q, Parent(p)) {
        AboveParent(q, p);
      }
      assert base <= Parent(p) <==> Above(base, Parent(p));
    }
    hide IsFile, Fits, Above;
    assert IsFile(format, e.kind) && p == [] ==> !InsideBase(base, format, dest, e) by {
      NothingBelowTheRoot(base);
    }
  }

  lemma NothingBelowTheRoot(base: Path)
    ensures Above(base, []) ==> base == []
  {
  }

  /** Two entries call for a directory and a file in the same place. */
  ghost predicate Collide(format: Format, dest: Path, entries: seq<Entry>) {
    exists q :: DirAt(format, dest, entries, q) && FileAt(format, dest, entries, q)
  }

  /**
   What it takes for all entries to fit, told from the entries and the old tree alone:
   each stays inside the base, none calls for a directory where a file is or for a file
   where a directory is, and no two get in each other's way, whatever their order.
   */
  ghost predicate Compatible(t: Tree, base: Path, format: Format, dest: Path, entries: seq<Entry>) {
    && (forall i :: 0 <= i < |entries| ==> InsideBase(base, format, dest, entries[i]))
    && (forall q :: q in t && DirAt(format, dest, entries, q) ==> t[q] == Dir)
    && (forall q :: q in t && FileAt(format, dest, entries, q) ==> t[q].File?)
    && !Collide(format, dest, entries)
  }

  /** `u` is the tree the entries unpack to, as far as where directories and files are. */
  ghost predicate Shape(t: Tree, format: Format, dest: Path, entries: seq<Entry>, u: Tree) {
    && (forall q :: q in u <==> q in t || DirAt(format, dest, entries, q) || FileAt(format, dest, entries, q))
    && (forall q :: DirAt(format, dest, entries, q) ==> u[q] == Dir)
    && (forall q :: FileAt(format, dest, entries, q) ==> u[q].File?)
    && (forall q :: q in t && !FileAt(format, dest, entries, q) ==> u[q] == t[q])
  }

  lemma CompatibleSnoc(t: Tree, base: Path, format: Format, dest: Path, entries: seq<Entry>, u: Tree)
    requires entries != [] && Shape(t, format, dest, entries[..|entries| - 1], u)
    requires Compatible(t, base, format, dest, entries[..|entries| - 1])
    ensures Compatible(t, base, format, dest, entries) <==> EntryFits(u, base, format, dest, entries[|entries| - 1])
  {
    var n := |entries| - 1;
    var before, last := entries[..n], entries[n];
    FitsIff(u, base, format, dest, last);
    assert forall i :: 0 <= i < n ==> before[i] == entries[i];
    forall q
      ensures DirAt(format, dest, entries, q) <==> DirAt(format, dest, before, q) || CallsForDir(format, dest, last, q)
      ensures FileAt(format, dest, entries, q) <==> FileAt(format, dest, before, q) || CallsForFile(format, dest, last, q)
      ensures !(CallsForDir(format, dest, last, q) && CallsForFile(format, dest, last, q))
    {
      OneEntryMore(format, dest, entries, q);
      NotBoth(format, dest, last, q);
    }
    hide DirAt, FileAt, CallsForDir, CallsForFile, EntryFits, InsideBase;
    if Compatible(t, base, format, dest, entries) {
      forall q | q in u && CallsForDir(format, dest, last, q) ensures u[q] == Dir {
        assert !FileAt(format, dest, before, q);
      }
      forall q | q in u && CallsForFile(format, dest, last, q) ensures u[q].File? {
        assert !DirAt(format, dest, before, q);
      }
    }
    if EntryFits(u, base, format, dest, last) {
      forall q ensures !(DirAt(format, dest, entries, q) && FileAt(format, dest, entries, q)) {
      }
    }
  }

  lemma CompatiblePrefix(t: Tree, base: Path, format: Format, dest: Path, entries: seq<Entry>)
    requires entries != [] && Compatible(t, base, format, dest, entries)
    ensures Compatible(t, base, format, dest, entries[..|entries| - 1])
  {
    var n := |entries| - 1;
    assert forall i :: 0 <= i < n ==> entries[..n][i] == entries[i];
    forall q
      ensures DirAt(format, dest, entries[..n], q) ==> DirAt(format, dest, entries, q)
      ensures FileAt(format, dest, entries[..n], q) ==> FileAt(format, dest, entries, q)
    {
      OneEntryMore(format, dest, entries, q);
    }
    hide DirAt, FileAt, InsideBase;
  }

  lemma {:induction false} AllFitIff(t: Tree, base: Path, format: Format, dest: Path, entries: seq<Entry>)
    requires Rooted(t)
    ensures AllFit(t, base, format, dest, entries) <==> Compatible(t, base, format, dest, entries)
    decreases |entries|
  {
    hide Compatible, Unpacked, EntryFits, Rooted;
    if entries == [] {
      NothingCollides(t, base, format, dest);
    } else {
      var before := entries[..|entries| - 1];
      AllFitIff(t, base, format, dest, before);
      if AllFit(t, base, format, dest, before) {
        UnpackedIs(t, base, format, dest, before);
        CompatibleSnoc(t, base, format, dest, entries, Unpacked(t, format, dest, before));
      } else if Compatible(t, base, format, dest, entries) {
        CompatiblePrefix(t, base, format, dest, entries);
      }
    }
  }

  lemma NothingCollides(t: Tree, base: Path, format: Format, dest: Path)
    ensures Compatible(t, base, format, dest, [])
  {
  }

  /**
   When an archive is sound, told from its entries and the old tree alone: names and kinds
   are allowed, there are at most ten thousand entries and a gigabyte, and all fit.
   */
  lemma SoundIff(t: Tree, base: Path, format: Format, dest: Path, entries: seq<Entry>)
    requires Rooted(t)
    ensures Sound(t, base, format, dest, entries) <==>
              && |entries| <= 10000 && Bytes(format, entries) <= 1073741824
              && (forall i :: 0 <= i < |entries| ==>
                    entries[i].nameOk && !entries[i].kind.Symlink? && !(format.TarGz? && entries[i].kind.HardLink?))
              && Compatible(t, base, format, dest, entries)
  {
    AllFitIff(t, base, format, dest, entries);
    hide AllFit, Compatible, Bytes;
    forall e ensures Forbidden(format, e) <==> e.Symlink? || (format.TarGz? && e.HardLink?) {
      KindsOf(format, e);
    }
    hide Forbidden;
    assert forall i :: 0 <= i < |entries| ==> entries[i] in entries;
  }

  lemma NotBoth(format: Format, dest: Path, e: Entry, q: Path)
    ensures !(CallsForDir(format, dest, e, q) && CallsForFile(format, dest, e, q))
  {
    KindsOf(format, e.kind);
  }

  // ---- The manager ----

  class Manager {
    const base: Path
    const disk: Disk

    constructor (base: Path, disk: Disk)
      ensures this.base == base && this.disk == disk
    {
      this.base := base;
      this.disk := disk;
    }

    /** The missing directories on the way up from `path`, deepest first. */
    method MissingDirs(path: Path) returns (ok: bool, toCreate: seq<Path>)
      requires Rooted(disk.tree)
      modifies disk`faults
      ensures disk.faults >= old(disk.faults) && (!ok ==> disk.faults > old(disk.faults) || !Fits(disk.tree, path))
      ensures ok ==> Missing(disk.tree, path, toCreate)
      ensures ok ==> Up(path, |toCreate|) in disk.tree && disk.tree[Up(path, |toCreate|)].Dir?
      ensures ok ==> Fits(disk.tree, path)
    {
      toCreate := [];
      var curr := path;
      while true
        invariant Missing(disk.tree, path, toCreate) && curr == Up(path, |toCreate|)
        invariant disk.faults >= old(disk.faults)
        decreases |curr|
      {
        FitsAbove(disk.tree, path, |toCreate|);
        var info := disk.Stat(curr);
        if info.IsDir? {
          DirsFit(disk.tree, path, |toCreate|);
          return true, toCreate;
        }
        if !info.NotExist? {
          return false, toCreate;
        }
        toCreate := toCreate + [curr];
        curr := Parent(curr);
        if curr == [] {
          DirsFit(disk.tree, path, |toCreate|);
          return true, toCreate;
        }
      }
    }

    /** One os.Mkdir of the loop below: a directory that was made is recorded, one that exists is not. */
    method MkdirWithRecord(p: Path, created: seq<Path>, ghost t0: Tree) returns (ok: bool, record: seq<Path>)
      requires Recorded(t0, disk.tree, created)
      modifies disk`tree, disk`faults
      ensures disk.faults >= old(disk.faults)
      ensures !ok ==> disk.faults > old(disk.faults) || !Holds(old(disk.tree), p)
      ensures Recorded(t0, disk.tree, record)
      ensures Overwritten(t0, record) == Overwritten(t0, created)
      ensures ok ==> disk.tree == if p in old(disk.tree) then old(disk.tree) else old(disk.tree)[p := Dir]
    {
      ghost var before := disk.tree;
      var made := disk.Mkdir(p);
      record := created;
      if made.Made? {
        RecordingKeeps(t0, before, created, p, Dir);
        OverwrittenGrows(t0, created, p);
        record := record + [p];
      }
      ok := !made.MkdirFault?;
    }

    method MkdirAllWithRecord(path: Path, created: seq<Path>, ghost t0: Tree) returns (ok: bool, record: seq<Path>)
      requires Recorded(t0, disk.tree, created)
      modifies disk`tree, disk`faults
      ensures disk.faults >= old(disk.faults)
      ensures !ok ==> disk.faults > old(disk.faults) || !(base <= path && Fits(old(disk.tree), path))
      ensures Recorded(t0, disk.tree, record)
      ensures Overwritten(t0, record) == Overwritten(t0, created)
      ensures ok ==> base <= path && Fits(old(disk.tree), path) && disk.tree == MadeDirs(old(disk.tree), path)
      ensures ok ==> path in disk.tree && disk.tree[path].Dir?
    {
      assert Rooted(disk.tree);
      hide *;
      record := created;
      if !(base <= path) {
        return false, record;
      }
      var found, toCreate := MissingDirs(path);
      if !found {
        return false, record;
      }
      ok, record := MakeMissing(path, toCreate, created, t0);
    }

    /** The second loop of mkdirAllWithRecord, from the top down. */
    method MakeMissing(path: Path, toCreate: seq<Path>, created: seq<Path>, ghost t0: Tree)
      returns (ok: bool, record: seq<Path>)
      requires Recorded(t0, disk.tree, created) && Missing(disk.tree, path, toCreate)
      requires Up(path, |toCreate|) in disk.tree && disk.tree[Up(path, |toCreate|)].Dir?
      modifies disk`tree, disk`faults
      ensures disk.faults >= old(disk.faults) && (!ok ==> disk.faults > old(disk.faults))
      ensures Recorded(t0, disk.tree, record)
      ensures Overwritten(t0, record) == Overwritten(t0, created)
      ensures ok ==> disk.tree == MadeDirs(old(disk.tree), path) && path in disk.tree && disk.tree[path].Dir?
    {
      hide *;
      record := created;
      ghost var start := disk.tree;
      var i := |toCreate|;
      MissingEnds(start, path, toCreate);
      while i > 0
        invariant 0 <= i <= |toCreate|
        invariant disk.faults >= old(disk.faults)
        invariant Recorded(t0, disk.tree, record)
        invariant Overwritten(t0, record) == Overwritten(t0, created)
        invariant disk.tree == MadeDirs(start, Up(path, i))
        invariant Up(path, i) in disk.tree && disk.tree[Up(path, i)].Dir?
        invariant forall k :: 0 <= k < i ==> Up(path, k) !in disk.tree
      {
        i := i - 1;
        MadeDirsStep(start, path, toCreate, i);
        HoldsBelow(disk.tree, path, i);
        var made;
        made, record := MkdirWithRecord(toCreate[i], record, t0);
        if !made {
          return false, record;
        }
      }
      ok := true;
    }

    method OpenWithRecord(p: Path, created: seq<Path>, ghost t0: Tree) returns (ok: bool, record: seq<Path>)
      requires Recorded(t0, disk.tree, created)
      modifies disk`tree, disk`faults
      ensures disk.faults >= old(disk.faults)
      ensures !ok ==> disk.faults > old(disk.faults) || !Holds(old(disk.tree), p)
                      || (p in old(disk.tree) && old(disk.tree)[p].Dir?)
      ensures Recorded(t0, disk.tree, record)
      ensures ok ==> p != [] && p in record && disk.tree == old(disk.tree)[p := File([])]
      ensures ok ==> (p in old(disk.tree) ==> old(disk.tree)[p].File?)
      ensures Overwritten(t0, record) == Overwritten(t0, created) + if ok && p in t0 then {p} else {}
    {
      ghost var before := disk.tree;
      ok := disk.OpenTruncate(p);
      record := created;
      if ok {
        RecordingKeeps(t0, before, created, p, File([]));
        OverwrittenGrows(t0, created, p);
        record := record + [p];
      }
    }

    /** io.Copy into a limitWriter: `total` is the counter all files of one extraction share. */
    method CopyLimited(p: Path, chunks: seq<seq<Byte>>, total: nat, ghost created: seq<Path>, ghost t0: Tree)
      returns (ok: bool, sum: nat)
      requires Recorded(t0, disk.tree, created) && p in created && p in disk.tree && disk.tree[p] == File([])
      requires total <= MAX_EXTRACT_SIZE
      modifies disk
      ensures Recorded(t0, disk.tree, created)
      ensures disk.faults >= old(disk.faults)
      ensures !ok ==> disk.faults > old(disk.faults) || total + |Concat(chunks)| > MAX_EXTRACT_SIZE
      ensures ok ==> disk.tree == old(disk.tree)[p := File(Concat(chunks))] && sum == total + |Concat(chunks)|
      ensures sum <= MAX_EXTRACT_SIZE && disk.written - old(disk.written) == sum - total
    {
      hide Recorded, Concat;
      sum := total;
      var i := 0;
      CopiedNone(chunks);
      assert disk.tree == disk.tree[p := File([])];
      if * {
        disk.faults := disk.faults + 1;
        return false, sum; // the entry cannot be opened
      }
      while i < |chunks|
        invariant 0 <= i <= |chunks|
        invariant Recorded(t0, disk.tree, created)
        invariant disk.tree == old(disk.tree)[p := File(Concat(chunks[..i]))]
        invariant disk.faults >= old(disk.faults) && sum == total + |Concat(chunks[..i])|
        invariant sum <= MAX_EXTRACT_SIZE && disk.written - old(disk.written) == sum - total
      {
        if * {
          disk.faults := disk.faults + 1;
          return false, sum; // reading the archive failed
        }
        CopiedStep(chunks, i);
        CopiedPart(chunks, i + 1);
        if sum + |chunks[i]| > MAX_EXTRACT_SIZE {
          return false, sum;
        }
        ghost var before := disk.tree;
        var n, written := disk.Append(p, chunks[i]);
        WritingKeeps(t0, before, created, p, disk.tree[p].content);
        sum := sum + n;
        if !written {
          return false, sum;
        }
        i := i + 1;
      }
      assert chunks[..|chunks|] == chunks;
      ok := true;
    }

    method ExtractFile(p: Path, chunks: seq<seq<Byte>>, created: seq<Path>, total: nat, ghost t0: Tree)
      returns (ok: bool, record: seq<Path>, sum: nat, ghost hit: bool)
      requires Recorded(t0, disk.tree, created) && total <= MAX_EXTRACT_SIZE
      modifies disk
      ensures disk.faults >= old(disk.faults)
      ensures ok ==> hit
      ensures hit ==> FileFits(old(disk.tree), base, p)
      ensures disk.faults == old(disk.faults) && FileFits(old(disk.tree), base, p) ==> hit
      ensures hit && !ok ==> disk.faults > old(disk.faults) || total + |Concat(chunks)| > MAX_EXTRACT_SIZE
      ensures Recorded(t0, disk.tree, record)
      ensures ok ==> disk.tree == MadeDirs(old(disk.tree), Parent(p))[p := File(Concat(chunks))]
      ensures ok ==> sum == total + |Concat(chunks)|
      ensures sum <= MAX_EXTRACT_SIZE && disk.written - old(disk.written) == sum - total
      ensures Overwritten(t0, record) == Overwritten(t0, created) + if hit && p in t0 then {p} else {}
    {
      hide Recorded, Overwritten, MadeDirs, Concat, Fits;
      sum, hit := total, false;
      if p != [] {
        NotMade(disk.tree, p);
        MadeDirsKeeps(disk.tree, Parent(p));
      }
      ok, record := MkdirAllWithRecord(if p == [] then [] else Parent(p), created, t0);
      if !ok {
        return;
      }
      ok, record := OpenWithRecord(p, record, t0);
      if !ok {
        return;
      }
      hit := true;
      ok, sum := CopyLimited(p, chunks, total, record, t0);
    }

    /** What extractZip does with one entry that passed the checks. */
    method PlaceZip(dest: Path, e: Entry, created: seq<Path>, total: nat, ghost t0: Tree)
      returns (ok: bool, record: seq<Path>, sum: nat, ghost hit: bool)
      requires Recorded(t0, disk.tree, created) && total <= MAX_EXTRACT_SIZE && !Forbidden(Zip, e.kind)
      modifies disk
      ensures disk.faults >= old(disk.faults)
      ensures ok || hit ==> EntryFits(old(disk.tree), base, Zip, dest, e)
      ensures ok ==> total + Size(Zip, e) <= MAX_EXTRACT_SIZE
      ensures disk.faults == old(disk.faults) && EntryFits(old(disk.tree), base, Zip, dest, e) ==>
                if total + Size(Zip, e) <= MAX_EXTRACT_SIZE then ok else hit
      ensures ok ==> disk.tree == Placed(old(disk.tree), Zip, dest, e) && sum == total + Size(Zip, e)
      ensures ok && IsFile(Zip, e.kind) ==> hit
      ensures Recorded(t0, disk.tree, record)
      ensures sum <= MAX_EXTRACT_SIZE && disk.written - old(disk.written) == sum - total
      ensures hit ==> IsFile(Zip, e.kind)
      ensures Overwritten(t0, record)
           == Overwritten(t0, created) + if hit && dest + e.rel in t0 then {dest + e.rel} else {}
    {
      hide Recorded, Overwritten, MadeDirs, Concat, Fits;
      var p := dest + e.rel;
      sum, hit := total, false;
      if e.kind.Directory? {
        ok, record := MkdirAllWithRecord(p, created, t0);
      } else {
        ok, record, sum, hit := ExtractFile(p, e.chunks, created, total, t0);
      }
    }

    /** What extractTarGz does with one entry that passed the checks. */
    method PlaceTarGz(dest: Path, e: Entry, created: seq<Path>, total: nat, ghost t0: Tree)
      returns (ok: bool, record: seq<Path>, sum: nat, ghost hit: bool)
      requires Recorded(t0, disk.tree, created) && total <= MAX_EXTRACT_SIZE && !Forbidden(TarGz, e.kind)
      modifies disk
      ensures disk.faults >= old(disk.faults)
      ensures ok || hit ==> EntryFits(old(disk.tree), base, TarGz, dest, e)
      ensures ok ==> total + Size(TarGz, e) <= MAX_EXTRACT_SIZE
      ensures disk.faults == old(disk.faults) && EntryFits(old(disk.tree), base, TarGz, dest, e) ==>
                if total + Size(TarGz, e) <= MAX_EXTRACT_SIZE then ok else hit
      ensures ok ==> disk.tree == Placed(old(disk.tree), TarGz, dest, e) && sum == total + Size(TarGz, e)
      ensures ok && IsFile(TarGz, e.kind) ==> hit
      ensures Recorded(t0, disk.tree, record)
      ensures sum <= MAX_EXTRACT_SIZE && disk.written - old(disk.written) == sum - total
      ensures hit ==> IsFile(TarGz, e.kind)
      ensures Overwritten(t0, record)
           == Overwritten(t0, created) + if hit && dest + e.rel in t0 then {dest + e.rel} else {}
    {
      hide Recorded, Overwritten, MadeDirs, Concat, Fits;
      var p := dest + e.rel;
      sum, hit := total, false;
      match e.kind {
        case Directory => ok, record := MkdirAllWithRecord(p, created, t0);
        case Regular => ok, record, sum, hit := ExtractFile(p, e.chunks, created, total, t0);
        case Special => ok, record := true, created;
      }
    }

    /** The loop of extractZip. */
    method UnpackZip(dest: Path, entries: seq<Entry>)
      returns (ok: bool, created: seq<Path>, total: nat, ghost reached: nat)
      requires Rooted(disk.tree)
      modifies disk
      ensures Recorded(old(disk.tree), disk.tree, created)
      ensures ok ==> Sound(old(disk.tree), base, Zip, dest, entries)
                     && disk.tree == Unpacked(old(disk.tree), Zip, dest, entries)
      ensures disk.faults >= old(disk.faults)
      ensures !ok && disk.faults == old(disk.faults) ==>
                !Sound(old(disk.tree), base, Zip, dest, entries) && reached == Opened(old(disk.tree), base, Zip, dest, entries)
      ensures reached <= Opened(old(disk.tree), base, Zip, dest, entries)
      ensures Overwritten(old(disk.tree), created) == Lost(old(disk.tree), Zip, dest, entries, reached)
      ensures total <= MAX_EXTRACT_SIZE && disk.written - old(disk.written) == total
    {
      hide *;
      ghost var t0 := disk.tree;
      created, total, reached := [], 0, 0;
      var fileCount := 0;
      UnpackingStarts(t0, Zip, dest, entries);
      NothingYetIsSound(t0, base, Zip, dest, entries);
      var n := 0;
      while n < |entries|
        invariant 0 <= n <= |entries| && fileCount == n <= MAX_EXTRACT_FILE_COUNT && reached == n
        invariant Recorded(t0, disk.tree, created)
        invariant disk.tree == Unpacked(t0, Zip, dest, entries[..n])
        invariant total <= MAX_EXTRACT_SIZE && disk.written - old(disk.written) == total
        invariant Overwritten(t0, created) == Lost(t0, Zip, dest, entries, n)
        invariant Sound(t0, base, Zip, dest, entries[..n]) && Acceptable(Zip, entries[..n])
        invariant disk.faults >= old(disk.faults) && total == Bytes(Zip, entries[..n])
      {
        var e := entries[n];
        KindsOf(Zip, e.kind);
        SoundStep(t0, base, Zip, dest, entries, n);
        OpensIff(t0, base, Zip, dest, entries, n);
        if !e.nameOk || e.kind.Symlink? {
          StopsHere(t0, base, Zip, dest, entries, n, false, true);
          return false, created, total, n;
        }
        fileCount := fileCount + 1;
        if fileCount > MAX_EXTRACT_FILE_COUNT {
          StopsHere(t0, base, Zip, dest, entries, n, false, true);
          return false, created, total, n;
        }
        UnpackingSteps(t0, Zip, dest, entries, n);
        LostStep(t0, Zip, dest, entries, n);
        ghost var hit;
        ok, created, total, hit := PlaceZip(dest, e, created, total, t0);
        if !ok {
          StopsHere(t0, base, Zip, dest, entries, n, hit, disk.faults == old(disk.faults));
          reached := if hit then n + 1 else n;
          return;
        }
        n := n + 1;
        reached := n;
      }
      assert entries[..n] == entries;
      ReachAtLeast(t0, base, Zip, dest, entries, n);
      OpenedReaches(t0, base, Zip, dest, entries);
      ok := true;
    }

    /** The loop of extractTarGz. */
    method UnpackTarGz(dest: Path, entries: seq<Entry>)
      returns (ok: bool, created: seq<Path>, total: nat, ghost reached: nat)
      requires Rooted(disk.tree)
      modifies disk
      ensures Recorded(old(disk.tree), disk.tree, created)
      ensures ok ==> Sound(old(disk.tree), base, TarGz, dest, entries)
                     && disk.tree == Unpacked(old(disk.tree), TarGz, dest, entries)
      ensures disk.faults >= old(disk.faults)
      ensures !ok && disk.faults == old(disk.faults) ==>
                !Sound(old(disk.tree), base, TarGz, dest, entries) && reached == Opened(old(disk.tree), base, TarGz, dest, entries)
      ensures reached <= Opened(old(disk.tree), base, TarGz, dest, entries)
      ensures Overwritten(old(disk.tree), created) == Lost(old(disk.tree), TarGz, dest, entries, reached)
      ensures total <= MAX_EXTRACT_SIZE && disk.written - old(disk.written) == total
    {
      hide *;
      ghost var t0 := disk.tree;
      created, total, reached := [], 0, 0;
      var fileCount := 0;
      UnpackingStarts(t0, TarGz, dest, entries);
      NothingYetIsSound(t0, base, TarGz, dest, entries);
      var n := 0;
      while true
        invariant 0 <= n <= |entries| && fileCount == n <= MAX_EXTRACT_FILE_COUNT && reached == n
        invariant Recorded(t0, disk.tree, created)
        invariant disk.tree == Unpacked(t0, TarGz, dest, entries[..n])
        invariant total <= MAX_EXTRACT_SIZE && disk.written - old(disk.written) == total
        invariant Overwritten(t0, created) == Lost(t0, TarGz, dest, entries, n)
        invariant Sound(t0, base, TarGz, dest, entries[..n]) && Acceptable(TarGz, entries[..n])
        invariant disk.faults >= old(disk.faults) && total == Bytes(TarGz, entries[..n])
        decreases |entries| - n
      {
        if * {
          disk.faults := disk.faults + 1;
          ReachAtLeast(t0, base, TarGz, dest, entries, n);
          OpenedReaches(t0, base, TarGz, dest, entries);
          return false, created, total, n; // the next header cannot be read
        }
        if n == |entries| {
          break;
        }
        var e := entries[n];
        KindsOf(TarGz, e.kind);
        SoundStep(t0, base, TarGz, dest, entries, n);
        OpensIff(t0, base, TarGz, dest, entries, n);
        if !e.nameOk {
          StopsHere(t0, base, TarGz, dest, entries, n, false, true);
          return false, created, total, n;
        }
        fileCount := fileCount + 1;
        if fileCount > MAX_EXTRACT_FILE_COUNT {
          StopsHere(t0, base, TarGz, dest, entries, n, false, true);
          return false, created, total, n;
        }
        if e.kind.Symlink? || e.kind.HardLink? {
          StopsHere(t0, base, TarGz, dest, entries, n, false, true);
          return false, created, total, n;
        }
        UnpackingSteps(t0, TarGz, dest, entries, n);
        LostStep(t0, TarGz, dest, entries, n);
        ghost var hit;
        ok, created, total, hit := PlaceTarGz(dest, e, created, total, t0);
        if !ok {
          StopsHere(t0, base, TarGz, dest, entries, n, hit, disk.faults == old(disk.faults));
          reached := if hit then n + 1 else n;
          return;
        }
        n := n + 1;
        reached := n;
      }
      assert entries[..n] == entries;
      ReachAtLeast(t0, base, TarGz, dest, entries, n);
      OpenedReaches(t0, base, TarGz, dest, entries);
      ok := true;
    }

    /** The deferred clean-up; a removal that fails is only logged. */
    method RollBack(created: seq<Path>) returns (faulted: bool)
      modifies disk`tree
      ensures !faulted ==> disk.tree == Undo(old(disk.tree), created)
      ensures forall p :: p in old(disk.tree) && p !in created ==> p in disk.tree
      ensures forall p :: p in disk.tree ==> p in old(disk.tree) && disk.tree[p] == old(disk.tree)[p]
    {
      faulted := false;
      var i := |created|;
      assert created[..i] == created;
      while i > 0
        invariant 0 <= i <= |created|
        invariant !faulted ==> Undo(disk.tree, created[..i]) == Undo(old(disk.tree), created)
        invariant forall p :: p in old(disk.tree) && p !in created ==> p in disk.tree
        invariant forall p :: p in disk.tree ==> p in old(disk.tree) && disk.tree[p] == old(disk.tree)[p]
      {
        i := i - 1;
        assert created[..i + 1][..i] == created[..i];
        var r := disk.Remove(created[i]);
        if r.RemoveFault? {
          faulted := true;
        }
      }
    }

    /**
     One extraction.  When nothing faults it unpacks the whole archive if and only if the
     archive is sound.  A failure, unless a removal faults, leaves the tree as it was
     without the old files among the targets of the entries opened so far.  So every
     failure restores the tree if no entry that can be opened names the file of an old
     node, and one without any fault does so if and only if none does.  Whatever
     fails, no other node is lost or changed and the bytes written stay in the limit.
     */
    method Extract(format: Format, dest: Path, entries: seq<Entry>)
      returns (ok: bool, faulted: bool, ghost reached: nat)
      requires Rooted(disk.tree)
      modifies disk
      ensures ok ==> Sound(old(disk.tree), base, format, dest, entries)
                     && disk.tree == Unpacked(old(disk.tree), format, dest, entries)
      ensures disk.faults == old(disk.faults) ==> (ok <==> Sound(old(disk.tree), base, format, dest, entries))
      ensures reached <= Opened(old(disk.tree), base, format, dest, entries)
      ensures !ok && disk.faults == old(disk.faults) ==> reached == Opened(old(disk.tree), base, format, dest, entries)
      ensures !ok && !faulted ==> disk.tree == old(disk.tree) - Lost(old(disk.tree), format, dest, entries, reached)
      ensures forall p :: p in old(disk.tree) && p !in Lost(old(disk.tree), format, dest, entries, reached) ==>
                p in disk.tree && (ok || disk.tree[p] == old(disk.tree)[p])
      ensures var harmless := NamesNoOldFile(old(disk.tree), format, dest, entries,
                                             Opened(old(disk.tree), base, format, dest, entries));
              && (!ok && !faulted && harmless ==> disk.tree == old(disk.tree))
              && (!ok && !faulted && disk.faults == old(disk.faults) ==> (disk.tree == old(disk.tree) <==> harmless))
      ensures disk.written - old(disk.written) <= MAX_EXTRACT_SIZE
    {
      FailureRestoresIff(disk.tree, base, format, dest, entries);
      hide Sound, Opened, Lost, Unpacked, NamesNoOldFile;
      ghost var t0 := disk.tree;
      var created, total;
      if format.Zip? {
        ok, created, total, reached := UnpackZip(dest, entries);
      } else {
        ok, created, total, reached := UnpackTarGz(dest, entries);
      }
      faulted := false;
      if !ok {
        UndoRestores(t0, disk.tree, created);
        faulted := RollBack(created);
      }
    }
  }
}

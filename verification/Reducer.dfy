/** The event-sourced conversation tree, and the list machine it refines. */
module Reducer {
  import opened Records

  // ---- the tree ----

  /** parent is NONE for a root entry. */
  datatype Entry = Entry(rec: Record, parent: RecordId)

  datatype Tree = Tree(entries: seq<Entry>, leaf: RecordId)

  /** Where the index map of Reduce points: the last entry with the id. */
  function LastIndex(entries: seq<Entry>, id: RecordId): (i: Option<nat>)
    ensures i.Some? ==> i.value < |entries| && entries[i.value].rec.id == id
    ensures i.Some? ==> forall j :: i.value < j < |entries| ==> entries[j].rec.id != id
    ensures i.None? ==> forall j :: 0 <= j < |entries| ==> entries[j].rec.id != id
  {
    if entries == [] then None
    else if entries[|entries| - 1].rec.id == id then Some(|entries| - 1)
    else LastIndex(entries[..|entries| - 1], id)
  }

  /** Does the record re-root the branch, rather than extend the leaf? */
  predicate Reroots(t: Tree, rec: Record) {
    rec.body.Compaction? && LastIndex(t.entries, rec.body.firstKept).Some?
  }

  function ReduceStep(t: Tree, rec: Record): Tree {
    if Reroots(t, rec) then
      var k := LastIndex(t.entries, rec.body.firstKept).value;
      Tree(t.entries[k := t.entries[k].(parent := rec.id)] + [Entry(rec, NONE)], t.leaf)
    else
      Tree(t.entries + [Entry(rec, t.leaf)], rec.id)
  }

  function Reduce(log: Log): Tree {
    if log == [] then Tree([], NONE) else ReduceStep(Reduce(log[..|log| - 1]), log[|log| - 1])
  }

  /** The index map names, for each id, the last entry with it. */
  ghost predicate Indexes(index: map<RecordId, nat>, entries: seq<Entry>) {
    forall id :: LastIndex(entries, id) == if id in index then Some(index[id]) else None
  }

  lemma IndexesAppend(index: map<RecordId, nat>, entries: seq<Entry>, e: Entry)
    requires Indexes(index, entries)
    ensures Indexes(index[e.rec.id := |entries|], entries + [e])
  {
    AppendLookups(entries, e);
  }

  /** The index map after the entries, one by one. */
  ghost function IndexMap(entries: seq<Entry>): map<RecordId, nat> {
    if entries == [] then map[]
    else IndexMap(entries[..|entries| - 1])[entries[|entries| - 1].rec.id := |entries| - 1]
  }

  lemma {:induction false} IndexMapLooksUp(entries: seq<Entry>, id: RecordId)
    ensures LastIndex(entries, id) == if id in IndexMap(entries) then Some(IndexMap(entries)[id]) else None
  {
    if entries != [] {
      IndexMapLooksUp(entries[..|entries| - 1], id);
    }
  }

  lemma IndexMapSnoc(entries: seq<Entry>, e: Entry)
    ensures IndexMap(entries + [e]) == IndexMap(entries)[e.rec.id := |entries|]
  {
    assert (entries + [e])[..|entries|] == entries;
  }

  lemma {:induction false} IndexMapIgnoresParents(entries: seq<Entry>, k: nat, parent: RecordId)
    requires k < |entries|
    ensures IndexMap(entries[k := entries[k].(parent := parent)]) == IndexMap(entries)
  {
    var n := |entries| - 1;
    var changed := entries[k := entries[k].(parent := parent)];
    if k < n {
      assert changed[..n] == entries[..n][k := entries[..n][k].(parent := parent)];
      IndexMapIgnoresParents(entries[..n], k, parent);
    } else {
      assert changed[..n] == entries[..n];
    }
  }

  lemma StepOf(t: Tree, rec: Record, kept: Option<nat>)
    requires kept == if rec.body.Compaction? then LastIndex(t.entries, rec.body.firstKept) else None
    ensures ReduceStep(t, rec)
         == if kept.Some?
            then Tree(t.entries[kept.value := t.entries[kept.value].(parent := rec.id)] + [Entry(rec, NONE)], t.leaf)
            else Tree(t.entries + [Entry(rec, t.leaf)], rec.id)
  {
  }

  lemma ReduceNext(log: Log, n: nat)
    requires n < |log|
    ensures Reduce(log[..n + 1]) == ReduceStep(Reduce(log[..n]), log[n])
  {
    assert log[..n + 1][..n] == log[..n];
  }

  /** One turn of the loop of Reduce, with its index map. */
  method ReduceRecord(was: seq<Entry>, wasIndex: map<RecordId, nat>, wasLeaf: RecordId, rec: Record)
    returns (entries: seq<Entry>, index: map<RecordId, nat>, leaf: RecordId)
    requires wasIndex == IndexMap(was)
    ensures Tree(entries, leaf) == ReduceStep(Tree(was, wasLeaf), rec)
    ensures index == IndexMap(entries)
  {
    entries, index, leaf := was, wasIndex, wasLeaf;
    if rec.body.Compaction? { IndexMapLooksUp(was, rec.body.firstKept); }
    if rec.body.Compaction? && rec.body.firstKept in index {
      var kept := index[rec.body.firstKept];
      StepOf(Tree(was, leaf), rec, Some(kept));
      IndexMapIgnoresParents(was, kept, rec.id);
      IndexMapSnoc(was[kept := was[kept].(parent := rec.id)], Entry(rec, NONE));
      entries := entries + [Entry(rec, NONE)];
      index := index[rec.id := |entries| - 1];
      entries := entries[kept := entries[kept].(parent := rec.id)];
      assert entries == was[kept := was[kept].(parent := rec.id)] + [Entry(rec, NONE)];
    } else {
      StepOf(Tree(was, leaf), rec, None);
      IndexMapSnoc(was, Entry(rec, leaf));
      entries := entries + [Entry(rec, leaf)];
      index := index[rec.id := |entries| - 1];
      leaf := rec.id;
    }
  }

  method ReduceLog(log: Log) returns (tree: Tree)
    ensures tree == Reduce(log)
  {
    var entries: seq<Entry> := [];
    var index: map<RecordId, nat> := map[];
    var leaf := NONE;
    for n := 0 to |log|
      invariant Tree(entries, leaf) == Reduce(log[..n])
      invariant index == IndexMap(entries)
    {
      ReduceNext(log, n);
      entries, index, leaf := ReduceRecord(entries, index, leaf, log[n]);
    }
    assert log[..|log|] == log;
    tree := Tree(entries, leaf);
  }

  lemma AppendLookups(entries: seq<Entry>, e: Entry)
    ensures forall id ::
              LastIndex(entries + [e], id) == if id == e.rec.id then Some(|entries|) else LastIndex(entries, id)
  {
    assert (entries + [e])[..|entries|] == entries;
  }

  lemma SetParentKeepsLookup(entries: seq<Entry>, k: nat, parent: RecordId)
    requires k < |entries|
    ensures forall id :: LastIndex(entries[k := entries[k].(parent := parent)], id) == LastIndex(entries, id)
  {
    var entries' := entries[k := entries[k].(parent := parent)];
    assert forall i :: 0 <= i < |entries| ==> entries'[i].rec == entries[i].rec;
  }

  /** Nothing is removed: the entries are the records of the log, in order. */
  lemma {:induction false} EntriesAreTheLog(log: Log)
    ensures |Reduce(log).entries| == |log|
    ensures forall i :: 0 <= i < |log| ==> Reduce(log).entries[i].rec == log[i]
  {
    if log != [] {
      EntriesAreTheLog(log[..|log| - 1]);
    }
  }

  // ---- the walk from the leaf ----

  /** path is the parent chain from a root to the entry named id. */
  predicate ChainTo(t: Tree, id: RecordId, path: Log)
    decreases |path|
  {
    if path == [] then id == NONE
    else
      var n := |path| - 1;
      var at := LastIndex(t.entries, id);
      id != NONE && at.Some? && t.entries[at.value].rec == path[n]
      && ChainTo(t, t.entries[at.value].parent, path[..n])
  }

  /** path is what a walk from id collects that ends: at a root, or at an id that
      no entry has, where it breaks off. */
  predicate WalkFrom(t: Tree, id: RecordId, path: Log)
    decreases |path|
  {
    if path == [] then id == NONE || LastIndex(t.entries, id).None?
    else
      var n := |path| - 1;
      var at := LastIndex(t.entries, id);
      id != NONE && at.Some? && t.entries[at.value].rec == path[n]
      && WalkFrom(t, t.entries[at.value].parent, path[..n])
  }

  /** ActiveLeafPath stops on the tree. */
  ghost predicate WalkEnds(t: Tree) {
    exists path :: WalkFrom(t, t.leaf, path)
  }

  lemma {:induction false} ChainIsWalk(t: Tree, id: RecordId, path: Log)
    requires ChainTo(t, id, path)
    ensures WalkFrom(t, id, path)
    decreases |path|
  {
    if path != [] {
      ChainIsWalk(t, t.entries[LastIndex(t.entries, id).value].parent, path[..|path| - 1]);
    }
  }

  lemma {:induction false} ChainIsUnique(t: Tree, id: RecordId, p: Log, q: Log)
    requires ChainTo(t, id, p) && ChainTo(t, id, q)
    ensures p == q
    decreases |p|
  {
    if p != [] && q != [] {
      var parent := t.entries[LastIndex(t.entries, id).value].parent;
      ChainIsUnique(t, parent, p[..|p| - 1], q[..|q| - 1]);
      assert p == p[..|p| - 1] + [p[|p| - 1]] && q == q[..|q| - 1] + [q[|q| - 1]];
    }
  }

  // ---- why the walk stops: pointers go back, then forward through roots ----

  /** An ordinary entry points back, or forward to a compaction root; a root
      points only forward, to a later root. */
  ghost predicate Linked(t: Tree, roots: set<nat>) {
    && (t.leaf == NONE || LastIndex(t.entries, t.leaf).Some?)
    && forall i {:trigger t.entries[i]} :: 0 <= i < |t.entries| && t.entries[i].parent != NONE ==>
         var p := LastIndex(t.entries, t.entries[i].parent);
         p.Some? && (if i < p.value then p.value in roots else p.value < i && i !in roots)
  }

  /** The compactions that re-rooted a branch, by position. */
  ghost function Roots(log: Log): set<nat> {
    if log == [] then {}
    else
      var n := |log| - 1;
      Roots(log[..n]) + (if Reroots(Reduce(log[..n]), log[n]) then {n} else {})
  }

  ghost predicate Distinct(log: Log) {
    && (forall i :: 0 <= i < |log| ==> log[i].id != NONE)
    && (forall i, j :: 0 <= i < j < |log| ==> log[i].id != log[j].id)
  }

  /** Records with consecutive new ids keep the ids of a log distinct. */
  lemma MintedStayDistinct(log: Log, out: Log, next: RecordId)
    requires Distinct(log) && next != NONE && forall i :: 0 <= i < |log| ==> log[i].id < next
    requires forall i :: 0 <= i < |out| ==> out[i].id == next + i
    ensures Distinct(log + out)
    ensures forall i :: 0 <= i < |log + out| ==> (log + out)[i].id < next + |out|
  {
    forall i, j | 0 <= i < j < |log + out|
      ensures (log + out)[i].id != (log + out)[j].id
    {
      if j < |log| { assert log[i].id != log[j].id; }
    }
  }

  /** On distinct ids the walk of the active path ends. */
  lemma DistinctWalkEnds(log: Log)
    requires Distinct(log)
    ensures WalkEnds(Reduce(log))
  {
    TreeRefinesList(log);
    ChainIsWalk(Reduce(log), Reduce(log).leaf, ActivePath(log));
  }

  lemma {:induction false} ReducedTreesAreLinked(log: Log)
    requires Distinct(log)
    ensures Linked(Reduce(log), Roots(log))
    ensures forall r :: r in Roots(log) ==> r < |log|
  {
    if log != [] {
      var n := |log| - 1;
      NewIdIsNotIndexed(log);
      ReducedTreesAreLinked(log[..n]);
      StepKeepsLinked(Reduce(log[..n]), Roots(log[..n]), log[n]);
    }
  }

  lemma NewIdIsNotIndexed(log: Log)
    requires Distinct(log) && log != []
    ensures var n := |log| - 1;
            && Distinct(log[..n]) && |Reduce(log[..n]).entries| == n
            && LastIndex(Reduce(log[..n]).entries, log[n].id).None?
  {
    EntriesAreTheLog(log[..|log| - 1]);
  }

  lemma StepKeepsLinked(t: Tree, roots: set<nat>, rec: Record)
    requires Linked(t, roots) && LastIndex(t.entries, rec.id).None? && rec.id != NONE
    requires forall r :: r in roots ==> r < |t.entries|
    ensures Linked(ReduceStep(t, rec), roots + (if Reroots(t, rec) then {|t.entries|} else {}))
  {
    if Reroots(t, rec) {
      RerootKeepsLinked(t, roots, rec, LastIndex(t.entries, rec.body.firstKept).value);
    } else {
      ExtendKeepsLinked(t, roots, rec);
      assert roots + {} == roots;
    }
  }

  lemma ExtendKeepsLinked(t: Tree, roots: set<nat>, rec: Record)
    requires Linked(t, roots) && LastIndex(t.entries, rec.id).None? && rec.id != NONE
    requires forall r :: r in roots ==> r < |t.entries|
    ensures Linked(Tree(t.entries + [Entry(rec, t.leaf)], rec.id), roots)
  {
    var entries := t.entries + [Entry(rec, t.leaf)];
    AppendLookups(t.entries, Entry(rec, t.leaf));
    forall i {:trigger entries[i]} | 0 <= i < |entries| && entries[i].parent != NONE
      ensures var p := LastIndex(entries, entries[i].parent);
              p.Some? && (if i < p.value then p.value in roots else p.value < i && i !in roots)
    {
      if i < |t.entries| { assert entries[i] == t.entries[i]; }
    }
  }

  lemma RerootKeepsLinked(t: Tree, roots: set<nat>, rec: Record, k: nat)
    requires Linked(t, roots) && LastIndex(t.entries, rec.id).None? && rec.id != NONE && k < |t.entries|
    ensures Linked(Tree(t.entries[k := t.entries[k].(parent := rec.id)] + [Entry(rec, NONE)], t.leaf),
                   roots + {|t.entries|})
  {
    var n := |t.entries|;
    var mid := t.entries[k := t.entries[k].(parent := rec.id)];
    var entries := mid + [Entry(rec, NONE)];
    SetParentKeepsLookup(t.entries, k, rec.id);
    AppendLookups(mid, Entry(rec, NONE));
    forall i {:trigger entries[i]} | 0 <= i < |entries| && entries[i].parent != NONE
      ensures var p := LastIndex(entries, entries[i].parent);
              p.Some? && (if i < p.value then p.value in roots + {n} else p.value < i && i !in roots + {n})
    {
      assert i < n;
      if i != k { assert entries[i] == t.entries[i]; }
    }
  }

  /** byId holds, for each id, the last entry with it; at says where it is. */
  ghost predicate ById(byId: map<RecordId, Entry>, at: map<RecordId, nat>, entries: seq<Entry>) {
    && Indexes(at, entries)
    && byId.Keys == at.Keys
    && forall id :: id in at ==> byId[id] == entries[at[id]]
  }

  lemma ByIdAppend(byId: map<RecordId, Entry>, at: map<RecordId, nat>, entries: seq<Entry>, e: Entry)
    requires ById(byId, at, entries)
    ensures ById(byId[e.rec.id := e], at[e.rec.id := |entries|], entries + [e])
  {
    IndexesAppend(at, entries, e);
    forall id | id in at
      ensures LastIndex(entries, id) == Some(at[id])
    {
    }
  }

  /** up lists, leaf first, the part of the walk already done. */
  ghost predicate WalkedTo(t: Tree, id: RecordId, up: Log) {
    forall rest :: ChainTo(t, id, rest) ==> ChainTo(t, t.leaf, rest + Reversed(up))
  }

  lemma WalkOn(t: Tree, id: RecordId, up: Log, i: nat)
    requires id != NONE && LastIndex(t.entries, id) == Some(i) && WalkedTo(t, id, up)
    ensures WalkedTo(t, t.entries[i].parent, up + [t.entries[i].rec])
  {
    var e := t.entries[i];
    forall rest | ChainTo(t, e.parent, rest)
      ensures ChainTo(t, t.leaf, rest + Reversed(up + [e.rec]))
    {
      assert (rest + [e.rec])[..|rest|] == rest;
      assert ChainTo(t, id, rest + [e.rec]);
      assert rest + [e.rec] + Reversed(up) == rest + Reversed(up + [e.rec]);
    }
  }

  /** The loops of ActiveLeafPath: collect from the leaf, then reverse in place. */
  method ActiveLeafPath(t: Tree, ghost roots: set<nat>) returns (path: array<Record>)
    requires Linked(t, roots)
    ensures fresh(path)
    ensures ChainTo(t, t.leaf, path[..])
  {
    var byId: map<RecordId, Entry> := map[];
    ghost var at: map<RecordId, nat> := map[];
    for n := 0 to |t.entries|
      invariant ById(byId, at, t.entries[..n])
    {
      var e := t.entries[n];
      assert t.entries[..n + 1] == t.entries[..n] + [e];
      ByIdAppend(byId, at, t.entries[..n], e);
      byId := byId[e.rec.id := e];
      at := at[e.rec.id := n];
    }
    assert t.entries[..|t.entries|] == t.entries;

    var up := WalkUp(t, roots, byId, at);
    path := new Record[|up|](i requires 0 <= i < |up| => up[i]);
    assert path[..] == up;
    ReverseInPlace(path);
  }

  /** The walk: it goes back through ordinary entries, then forward through roots. */
  method WalkUp(t: Tree, ghost roots: set<nat>, byId: map<RecordId, Entry>, ghost at: map<RecordId, nat>)
    returns (up: Log)
    requires Linked(t, roots) && ById(byId, at, t.entries)
    ensures ChainTo(t, t.leaf, Reversed(up))
  {
    up := [];
    var id := t.leaf;
    ghost var back := true;
    assert forall rest: Log :: rest + Reversed(up) == rest;
    while id != NONE
      invariant id == NONE || LastIndex(t.entries, id).Some?
      invariant WalkedTo(t, id, up)
      invariant id != NONE && !back ==> LastIndex(t.entries, id).value in roots
      decreases back, if id == NONE then 0
                      else if back then LastIndex(t.entries, id).value + 1
                      else |t.entries| - LastIndex(t.entries, id).value
    {
      if id !in byId {
        break;
      }
      var e := byId[id];
      ghost var i := LastIndex(t.entries, id).value;
      assert at[id] == i && t.entries[i] == e;
      WalkOn(t, id, up, i);
      up := up + [e.rec];
      id := e.parent;
      if id != NONE && i < LastIndex(t.entries, id).value {
        back := false;
      }
    }
    assert ChainTo(t, NONE, []);
    assert [] + Reversed(up) == Reversed(up);
  }

  function Reversed<T>(s: seq<T>): (r: seq<T>)
    ensures |r| == |s| && forall i :: 0 <= i < |s| ==> r[i] == s[|s| - 1 - i]
  {
    seq(|s|, i requires 0 <= i < |s| => s[|s| - 1 - i])
  }

  method ReverseInPlace(a: array<Record>)
    modifies a
    ensures a[..] == Reversed(old(a[..]))
  {
    var i, j := 0, a.Length - 1;
    while i < j
      invariant 0 <= i <= j + 1 <= a.Length && j == a.Length - 1 - i
      invariant forall k :: 0 <= k < i || j < k < a.Length ==> a[k] == old(a[a.Length - 1 - k])
      invariant forall k :: i <= k <= j ==> a[k] == old(a[k])
    {
      a[i], a[j] := a[j], a[i];
      i, j := i + 1, j - 1;
    }
  }

  // ---- the list machine ----

  function IndexOf(path: Log, id: RecordId): (k: Option<nat>)
    ensures k.Some? ==> k.value < |path| && path[k.value].id == id
    ensures k.None? ==> forall i :: 0 <= i < |path| ==> path[i].id != id
  {
    if path == [] then None
    else if path[|path| - 1].id == id then Some(|path| - 1)
    else IndexOf(path[..|path| - 1], id)
  }

  /** What one record does to the active path. */
  function PathStep(path: Log, before: Log, rec: Record): Log {
    if rec.body.Compaction? && IndexOf(before, rec.body.firstKept).Some? then
      match IndexOf(path, rec.body.firstKept)
      case Some(k) => [rec] + path[k..]
      case None => path
    else path + [rec]
  }

  function ActivePath(log: Log): Log {
    if log == [] then []
    else PathStep(ActivePath(log[..|log| - 1]), log[..|log| - 1], log[|log| - 1])
  }

  lemma {:induction false} PathIsDistinct(log: Log)
    requires Distinct(log)
    ensures Distinct(ActivePath(log))
    ensures forall r :: r in ActivePath(log) ==> r in log
  {
    if log != [] {
      var n := |log| - 1;
      var before, path := log[..n], ActivePath(log[..n]);
      PathIsDistinct(before);
      assert log == before + [log[n]];
      StepIsDistinct(path, before, log[n]);
    }
  }

  lemma NewIdIsOffPath(path: Log, before: Log, rec: Record)
    requires Distinct(before + [rec]) && forall r :: r in path ==> r in before
    ensures rec.id != NONE && forall i :: 0 <= i < |path| ==> path[i].id != rec.id
  {
    assert rec == (before + [rec])[|before|];
    forall i | 0 <= i < |path|
      ensures path[i].id != rec.id
    {
      assert path[i] in path;
      var k :| 0 <= k < |before| && before[k] == path[i];
      assert (before + [rec])[k] == before[k];
    }
  }

  lemma StepIsDistinct(path: Log, before: Log, rec: Record)
    requires Distinct(before + [rec]) && Distinct(path) && forall r :: r in path ==> r in before
    ensures Distinct(PathStep(path, before, rec))
    ensures forall r :: r in PathStep(path, before, rec) ==> r in before + [rec]
    ensures IndexOf(path, rec.id).None?
  {
    NewIdIsOffPath(path, before, rec);
    if rec.body.Compaction? && IndexOf(before, rec.body.firstKept).Some? {
      var kept := IndexOf(path, rec.body.firstKept);
      if kept.Some? { SuffixBehind(path, kept.value, rec); }
    } else {
      assert forall r :: r in path + [rec] ==> r in path || r == rec;
    }
    assert forall r :: r in before ==> r in before + [rec];
  }

  /** A new record in front of a suffix of a distinct path. */
  lemma SuffixBehind(path: Log, k: nat, rec: Record)
    requires Distinct(path) && k < |path| && rec.id != NONE && forall i :: 0 <= i < |path| ==> path[i].id != rec.id
    ensures Distinct([rec] + path[k..])
    ensures forall r :: r in [rec] + path[k..] ==> r == rec || r in path
  {
    var cut := [rec] + path[k..];
    assert forall i :: 1 <= i < |cut| ==> cut[i] == path[k + i - 1];
  }

  /** Records other than compactions extend the active path as they are. */
  lemma {:induction false} OrdinaryRecordsExtendThePath(log: Log, more: Log)
    requires forall i :: 0 <= i < |more| ==> !more[i].body.Compaction?
    ensures ActivePath(log + more) == ActivePath(log) + more
    decreases |more|
  {
    if more == [] {
      assert log + more == log;
    } else {
      var n := |more| - 1;
      OrdinaryRecordsExtendThePath(log, more[..n]);
      assert (log + more)[..|log + more| - 1] == log + more[..n];
      assert ActivePath(log) + more[..n] + [more[n]] == ActivePath(log) + more;
    }
  }

  lemma {:induction false} LookupsAgree(log: Log, id: RecordId)
    ensures LastIndex(Reduce(log).entries, id) == IndexOf(log, id)
  {
    EntriesAreTheLog(log);
    LookupsAgreeOn(Reduce(log).entries, log, id);
  }

  lemma {:induction false} LookupsAgreeOn(entries: seq<Entry>, log: Log, id: RecordId)
    requires |entries| == |log| && forall i :: 0 <= i < |log| ==> entries[i].rec == log[i]
    ensures LastIndex(entries, id) == IndexOf(log, id)
  {
    if log != [] {
      LookupsAgreeOn(entries[..|log| - 1], log[..|log| - 1], id);
    }
  }

  /** A chain that does not mention the changed ids survives a step. */
  lemma {:induction false} ChainFrame(t: Tree, t': Tree, id: RecordId, path: Log)
    requires ChainTo(t, id, path)
    requires forall i :: 0 <= i < |path| ==>
      var at, at' := LastIndex(t.entries, path[i].id), LastIndex(t'.entries, path[i].id);
      at.Some? ==> at'.Some? && t'.entries[at'.value] == t.entries[at.value]
    ensures ChainTo(t', id, path)
    decreases |path|
  {
    if path != [] {
      ChainFrame(t, t', t.entries[LastIndex(t.entries, id).value].parent, path[..|path| - 1]);
    }
  }

  lemma ExtendChain(t: Tree, path: Log, rec: Record)
    requires ChainTo(t, t.leaf, path) && IndexOf(path, rec.id).None? && rec.id != NONE && !Reroots(t, rec)
    ensures ChainTo(ReduceStep(t, rec), rec.id, path + [rec])
  {
    var t' := ReduceStep(t, rec);
    AppendLookups(t.entries, Entry(rec, t.leaf));
    ChainFrame(t, t', t.leaf, path);
    assert (path + [rec])[..|path|] == path;
  }

  lemma {:induction false} RerootChain(t: Tree, id: RecordId, path: Log, rec: Record, k: nat)
    requires Reroots(t, rec) && LastIndex(t.entries, rec.id).None? && rec.id != NONE
    requires ChainTo(t, id, path) && Distinct(path)
    requires k < |path| && path[k].id == rec.body.firstKept
    ensures ChainTo(ReduceStep(t, rec), id, [rec] + path[k..])
    decreases |path|
  {
    var t' := ReduceStep(t, rec);
    var kept := LastIndex(t.entries, rec.body.firstKept).value;
    var mid := t.entries[kept := t.entries[kept].(parent := rec.id)];
    SetParentKeepsLookup(t.entries, kept, rec.id);
    AppendLookups(mid, Entry(rec, NONE));
    var n := |path| - 1;
    assert ([rec] + path[k..])[..|[rec] + path[k..]| - 1] == [rec] + path[..n][k..] by {
      assert path[..n][k..] == path[k..n];
    }
    var at := LastIndex(t.entries, id).value;
    if k == n {
      assert [rec] + path[..n][k..] == [rec];
      assert [rec][..0] == [];
      assert ChainTo(t', NONE, []);
      assert ChainTo(t', rec.id, [rec]);
    } else {
      assert path[n].id != path[k].id;
      RerootChain(t, t.entries[at].parent, path[..n], rec, k);
    }
  }

  lemma OffPathChain(t: Tree, path: Log, rec: Record)
    requires Reroots(t, rec) && LastIndex(t.entries, rec.id).None? && rec.id != NONE
    requires ChainTo(t, t.leaf, path) && IndexOf(path, rec.body.firstKept).None?
    ensures ChainTo(ReduceStep(t, rec), t.leaf, path)
  {
    var kept := LastIndex(t.entries, rec.body.firstKept).value;
    var mid := t.entries[kept := t.entries[kept].(parent := rec.id)];
    SetParentKeepsLookup(t.entries, kept, rec.id);
    AppendLookups(mid, Entry(rec, NONE));
    ChainFrame(t, ReduceStep(t, rec), t.leaf, path);
  }

  /** The new record is off the path, which has distinct ids. */
  lemma PathLacksNew(before: Log, rec: Record)
    requires Distinct(before + [rec]) && Distinct(before)
    ensures Distinct(ActivePath(before)) && IndexOf(ActivePath(before), rec.id).None?
  {
    PathIsDistinct(before);
    StepIsDistinct(ActivePath(before), before, rec);
  }

  lemma LastStep(log: Log)
    requires log != []
    ensures var before, rec := log[..|log| - 1], log[|log| - 1];
            && log == before + [rec]
            && Reduce(log) == ReduceStep(Reduce(before), rec)
            && ActivePath(log) == PathStep(ActivePath(before), before, rec)
  {
  }

  /** The tree refines the list machine: on every log with distinct ids the
      chain from the leaf of the reduced tree is the list machine's path. */
  lemma {:induction false} TreeRefinesList(log: Log)
    requires Distinct(log)
    ensures ChainTo(Reduce(log), Reduce(log).leaf, ActivePath(log))
  {
    if log != [] {
      var before, rec := log[..|log| - 1], log[|log| - 1];
      NewIdIsNotIndexed(log);
      TreeRefinesList(before);
      LastStep(log);
      PathLacksNew(before, rec);
      if rec.body.Compaction? { LookupsAgree(before, rec.body.firstKept); }
      StepRefines(Reduce(before), ActivePath(before), before, rec);
    }
  }

  lemma StepRefines(t: Tree, path: Log, before: Log, rec: Record)
    requires ChainTo(t, t.leaf, path) && Distinct(path) && IndexOf(path, rec.id).None?
    requires LastIndex(t.entries, rec.id).None? && rec.id != NONE
    requires rec.body.Compaction? ==> LastIndex(t.entries, rec.body.firstKept) == IndexOf(before, rec.body.firstKept)
    ensures ChainTo(ReduceStep(t, rec), ReduceStep(t, rec).leaf, PathStep(path, before, rec))
  {
    if !Reroots(t, rec) {
      ExtendChain(t, path, rec);
    } else if IndexOf(path, rec.body.firstKept).Some? {
      RerootChain(t, t.leaf, path, rec, IndexOf(path, rec.body.firstKept).value);
    } else {
      OffPathChain(t, path, rec);
    }
  }

  /** Reduce, then ActiveLeafPath: what every reader of the conversation does. */
  method ActivePathOf(log: Log) returns (path: Log)
    requires Distinct(log)
    ensures path == ActivePath(log)
  {
    var tree := ReduceLog(log);
    ReducedTreesAreLinked(log);
    TreeRefinesList(log);
    var a := ActiveLeafPath(tree, Roots(log));
    ChainIsUnique(tree, tree.leaf, a[..], ActivePath(log));
    path := a[..];
  }

  // ---- a repeated id ----

  /** Following the chain from an entry of the old path down to position m. */
  lemma {:induction false} FollowDown(t: Tree, path: Log, rec: Record, m: nat, id: RecordId, p: Log, q: Log)
    requires ChainTo(t, id, p) && p <= path && m < |p|
    requires !Reroots(t, rec)
    requires path[m].id == rec.id && forall i :: m < i < |path| ==> path[i].id != rec.id
    requires WalkFrom(ReduceStep(t, rec), id, q)
    ensures |p| - 1 - m <= |q| && WalkFrom(ReduceStep(t, rec), rec.id, q[..|q| - (|p| - 1 - m)])
    decreases |p|
  {
    var n := |p| - 1;
    AppendLookups(t.entries, Entry(rec, t.leaf));
    if n == m {
      assert q[..|q|] == q;
    } else {
      assert path[n].id != rec.id;
      var at := LastIndex(t.entries, id).value;
      FollowDown(t, path, rec, m, t.entries[at].parent, p[..n], q[..|q| - 1]);
      assert q[..|q| - 1][..|q| - 1 - (n - 1 - m)] == q[..|q| - (n - m)];
    }
  }

  lemma {:induction false} NoWalkThroughItself(t: Tree, path: Log, rec: Record, m: nat, q: Log)
    requires ChainTo(t, t.leaf, path) && m < |path| && !Reroots(t, rec) && rec.id != NONE
    requires path[m].id == rec.id && forall i :: m < i < |path| ==> path[i].id != rec.id
    ensures !WalkFrom(ReduceStep(t, rec), rec.id, q)
    decreases |q|
  {
    if WalkFrom(ReduceStep(t, rec), rec.id, q) {
      AppendLookups(t.entries, Entry(rec, t.leaf));
      var q' := q[..|q| - 1];
      FollowDown(t, path, rec, m, t.leaf, path, q');
      NoWalkThroughItself(t, path, rec, m, q'[..|q'| - (|path| - 1 - m)]);
    }
  }

  /** Appending a record to the leaf keeps the walk finite exactly when the
      active path does not already hold a record with its id. */
  lemma WalkEndsUnlessIdRepeats(t: Tree, path: Log, rec: Record)
    requires ChainTo(t, t.leaf, path) && !Reroots(t, rec) && rec.id != NONE
    ensures WalkEnds(ReduceStep(t, rec)) <==> IndexOf(path, rec.id).None?
  {
    var t' := ReduceStep(t, rec);
    var m := IndexOf(path, rec.id);
    if m.None? {
      ExtendChain(t, path, rec);
      ChainIsWalk(t', t'.leaf, path + [rec]);
    } else {
      LastPosition(path, rec.id);
      forall q
        ensures !WalkFrom(t', t'.leaf, q)
      {
        NoWalkThroughItself(t, path, rec, m.value, q);
      }
    }
  }

  lemma {:induction false} LastPosition(path: Log, id: RecordId)
    requires IndexOf(path, id).Some?
    ensures forall i :: IndexOf(path, id).value < i < |path| ==> path[i].id != id
  {
    if path[|path| - 1].id != id {
      LastPosition(path[..|path| - 1], id);
    }
  }

  /** The duplicate a racing wake and consumer can land in memory, two
      task_spawned records with one id, makes the walk run forever. */
  lemma RacingSpawnRecordsLoop(callId: CallId, child: SubmissionId, sub: SubmissionId)
    ensures var call := Record(1, sub, ToolCall(callId, "task"));
            var spawn := Record(2, sub, TaskSpawned(callId, child));
            WalkEnds(Reduce([call, spawn])) && !WalkEnds(Reduce([call, spawn, spawn]))
  {
    var call := Record(1, sub, ToolCall(callId, "task"));
    var spawn := Record(2, sub, TaskSpawned(callId, child));
    var log := [call, spawn];
    TreeRefinesList(log);
    ChainIsWalk(Reduce(log), Reduce(log).leaf, ActivePath(log));
    assert log[..1] == [call] && [call][..0] == [];
    assert ActivePath([call]) == [call];
    assert ActivePath(log) == [call, spawn];
    assert [call, spawn, spawn][..2] == log;
    assert IndexOf(ActivePath(log), 2).Some?;
    WalkEndsUnlessIdRepeats(Reduce(log), ActivePath(log), spawn);
  }
}

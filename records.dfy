/**
 The materials table as a value: a map from material file name to its two
 timestamps, and the pure specification of every pass the database runs over
 it (insert/update, prune, task selection, batch completion) together with
 the properties those passes promise.
 */
module Records {
  import opened Naming

  /** One row of the materials table. */
  datatype Record = Record(modified: int, rendered: int)

  /** The materials table, keyed by material file name. */
  type Table = map<string, Record>

  /** One entry of the materials directory listing, with its modification time. */
  datatype DirEntry = DirEntry(name: string, mtime: int)

  /** The rendered time of a material that has never been rendered. */
  const NeverRendered: int := 0

  /** A material needs rendering when it changed after its last render. */
  predicate IsStale(r: Record)
  {
    r.modified > r.rendered
  }

  function Max(a: int, b: int): int
  {
    if a >= b then a else b
  }

  /** A directory listing never names the same entry twice. */
  predicate DistinctNames(listing: seq<DirEntry>)
  {
    forall i, j :: 0 <= i < j < |listing| ==> listing[i].name != listing[j].name
  }

  /**
   Every entry name of a directory listing, materials or not. The ensures
   spell out the comprehension element by element, for the proofs about the
   log update that need it.
   */
  function Names(listing: seq<DirEntry>): (names: seq<string>)
    ensures |names| == |listing|
    ensures forall i :: 0 <= i < |listing| ==> names[i] == listing[i].name
  {
    seq(|listing|, i requires 0 <= i < |listing| => listing[i].name)
  }

  /** The names of the material scenes in a directory listing. */
  function MaterialNames(listing: seq<DirEntry>): set<string>
  {
    set i | 0 <= i < |listing| && IsMaterialFile(listing[i].name) :: listing[i].name
  }

  /** The material names are the ".mb" entry names of the listing: only those, and all of them. */
  lemma MaterialNamesMembers(listing: seq<DirEntry>)
    ensures forall k :: k in MaterialNames(listing) ==> IsMaterialFile(k) && k in Names(listing)
    ensures forall i :: 0 <= i < |listing| && IsMaterialFile(listing[i].name) ==>
              listing[i].name in MaterialNames(listing)
  {
    forall k | k in MaterialNames(listing) ensures k in Names(listing) {
      var i :| 0 <= i < |listing| && IsMaterialFile(listing[i].name) && listing[i].name == k;
      assert Names(listing)[i] == k;
    }
  }

  lemma MaterialNamesSnoc(listing: seq<DirEntry>)
    requires |listing| > 0
    ensures var last := listing[|listing| - 1];
            MaterialNames(listing) ==
              MaterialNames(listing[..|listing| - 1]) + (if IsMaterialFile(last.name) then {last.name} else {})
  {
  }

  /**
   The effect of one material scene on the table: an unknown name is inserted
   as never rendered; a known name has its modified time raised to the scene's
   time when that is strictly newer, and its rendered time is left alone.
   */
  function Upsert(t: Table, name: string, mtime: int): (r: Table)
    ensures r.Keys == t.Keys + {name}
    ensures name !in t ==> r[name] == Record(mtime, NeverRendered)
    ensures name in t ==> r[name] == Record(Max(mtime, t[name].modified), t[name].rendered)
    ensures forall k :: k in t && k != name ==> r[k] == t[k]
  {
    if name !in t then t[name := Record(mtime, NeverRendered)]
    else if mtime > t[name].modified then t[name := t[name].(modified := mtime)]
    else t
  }

  /**
   The insert/update pass over a directory listing, entry by entry in listing
   order; entries that are not material scenes are skipped.
   */
  function InsertPass(t: Table, listing: seq<DirEntry>): (r: Table)
    ensures r.Keys == t.Keys + MaterialNames(listing)
    ensures forall k :: k in t ==> r[k].modified >= t[k].modified && r[k].rendered == t[k].rendered
    decreases |listing|
  {
    if listing == [] then t
    else
      var last := listing[|listing| - 1];
      var prev := InsertPass(t, listing[..|listing| - 1]);
      MaterialNamesSnoc(listing);
      if IsMaterialFile(last.name) then Upsert(prev, last.name, last.mtime) else prev
  }

  /** A name that is not a material scene of the listing is left exactly as it was. */
  lemma {:induction false} InsertPassOthers(t: Table, listing: seq<DirEntry>, k: string)
    requires k !in MaterialNames(listing)
    ensures k in InsertPass(t, listing) <==> k in t
    ensures k in t ==> InsertPass(t, listing)[k] == t[k]
    decreases |listing|
  {
    if listing != [] {
      MaterialNamesSnoc(listing);
      InsertPassOthers(t, listing[..|listing| - 1], k);
    }
  }

  /**
   After the insert/update pass, a material scene of the listing is in the
   table: newly inserted with its modification time and never rendered, or,
   if it was known, with the larger of the two modification times and its
   rendered time kept.
   */
  lemma {:induction false} InsertPassEntry(t: Table, listing: seq<DirEntry>, i: nat)
    requires DistinctNames(listing)
    requires i < |listing| && IsMaterialFile(listing[i].name)
    ensures listing[i].name in InsertPass(t, listing)
    ensures listing[i].name !in t ==>
              InsertPass(t, listing)[listing[i].name] == Record(listing[i].mtime, NeverRendered)
    ensures listing[i].name in t ==>
              InsertPass(t, listing)[listing[i].name]
                == Record(Max(listing[i].mtime, t[listing[i].name].modified), t[listing[i].name].rendered)
    decreases |listing|, 1
  {
    if i == |listing| - 1 {
      InsertPassLast(t, listing);
    } else {
      InsertPassEarlier(t, listing, i);
    }
  }

  /** The last entry of a listing is not overwritten by any earlier one. */
  lemma InsertPassLast(t: Table, listing: seq<DirEntry>)
    requires DistinctNames(listing)
    requires |listing| > 0 && IsMaterialFile(listing[|listing| - 1].name)
    ensures var e := listing[|listing| - 1];
            InsertPass(t, listing) == Upsert(InsertPass(t, listing[..|listing| - 1]), e.name, e.mtime)
    ensures var e := listing[|listing| - 1];
            e.name in t <==> e.name in InsertPass(t, listing[..|listing| - 1])
    ensures var e := listing[|listing| - 1];
            e.name in t ==> InsertPass(t, listing[..|listing| - 1])[e.name] == t[e.name]
  {
    var init := listing[..|listing| - 1];
    var name := listing[|listing| - 1].name;
    assert name !in MaterialNames(init) by {
      forall j | 0 <= j < |init| ensures init[j].name != name {
        assert init[j] == listing[j];
      }
    }
    InsertPassOthers(t, init, name);
  }

  /** An earlier entry keeps the value the prefix gave it, since the last entry names another file. */
  lemma {:induction false} InsertPassEarlier(t: Table, listing: seq<DirEntry>, i: nat)
    requires DistinctNames(listing)
    requires i < |listing| - 1 && IsMaterialFile(listing[i].name)
    ensures listing[i].name in InsertPass(t, listing)
    ensures listing[i].name !in t ==>
              InsertPass(t, listing)[listing[i].name] == Record(listing[i].mtime, NeverRendered)
    ensures listing[i].name in t ==>
              InsertPass(t, listing)[listing[i].name]
                == Record(Max(listing[i].mtime, t[listing[i].name].modified), t[listing[i].name].rendered)
    decreases |listing|, 0
  {
    var init := listing[..|listing| - 1];
    assert listing[|listing| - 1].name != listing[i].name;
    InsertPassSnocOther(t, listing, listing[i].name);
    DistinctPrefix(listing);
    assert init[i] == listing[i];
    InsertPassEntry(t, init, i);
  }

  /** The last entry of a listing leaves every other name as the rest of the listing left it. */
  lemma InsertPassSnocOther(t: Table, listing: seq<DirEntry>, k: string)
    requires |listing| > 0 && k != listing[|listing| - 1].name
    ensures var prev := InsertPass(t, listing[..|listing| - 1]);
            (k in InsertPass(t, listing) <==> k in prev) && (k in prev ==> InsertPass(t, listing)[k] == prev[k])
  {
  }

  lemma DistinctPrefix(listing: seq<DirEntry>)
    requires DistinctNames(listing) && |listing| > 0
    ensures DistinctNames(listing[..|listing| - 1])
  {
  }

  /** A new material scene is stale exactly when its modification time is positive. */
  lemma InsertedIsStale(t: Table, listing: seq<DirEntry>, i: nat)
    requires DistinctNames(listing)
    requires i < |listing| && IsMaterialFile(listing[i].name) && listing[i].name !in t
    ensures listing[i].name in InsertPass(t, listing)
    ensures IsStale(InsertPass(t, listing)[listing[i].name]) <==> listing[i].mtime > 0
  {
    InsertPassEntry(t, listing, i);
  }

  /** The insert/update pass changes nothing once every scene is recorded at least as new. */
  lemma {:induction false} InsertPassFixpoint(t: Table, listing: seq<DirEntry>)
    requires forall i :: 0 <= i < |listing| && IsMaterialFile(listing[i].name) ==>
               listing[i].name in t && t[listing[i].name].modified >= listing[i].mtime
    ensures InsertPass(t, listing) == t
    decreases |listing|
  {
    if listing != [] {
      var init := listing[..|listing| - 1];
      forall i | 0 <= i < |init| ensures init[i] == listing[i] { }
      InsertPassFixpoint(t, init);
    }
  }

  /** The names the prune pass deletes: recorded names absent from the directory. */
  function FilesToDelete(t: Table, dirEntries: seq<string>): set<string>
  {
    set k | k in t && k !in dirEntries
  }

  /**
   The prune pass: the kept records are exactly those whose name is among the
   directory entries (of any kind), each with its fields unchanged.
   */
  function Prune(t: Table, dirEntries: seq<string>): (r: Table)
    ensures forall k :: k in r <==> k in t && k in dirEntries
    ensures forall k :: k in r ==> r[k] == t[k]
  {
    t - FilesToDelete(t, dirEntries)
  }

  /** The log update: the insert/update pass, then the prune pass, over one listing. */
  function Reconcile(t: Table, listing: seq<DirEntry>): (r: Table)
    ensures forall k :: k in r ==> k in Names(listing)
    ensures forall k :: k in t && k in Names(listing) ==> k in r && r[k].rendered == t[k].rendered
  {
    Prune(InsertPass(t, listing), Names(listing))
  }

  /**
   After a log update the table holds exactly the material scenes of the
   listing together with the earlier records still in the directory.
   */
  lemma ReconcileKeys(t: Table, listing: seq<DirEntry>)
    ensures forall k :: k in Reconcile(t, listing) <==>
              (k in t || k in MaterialNames(listing)) && k in Names(listing)
    ensures MaterialNames(listing) <= Reconcile(t, listing).Keys
  {
  }

  /**
   A recorded name still in the directory survives a log update with its
   rendered time, and with a modified time that has not gone back.
   */
  lemma ReconcileKeepsRendered(t: Table, listing: seq<DirEntry>, k: string)
    requires k in t && k in Names(listing)
    ensures k in Reconcile(t, listing)
    ensures Reconcile(t, listing)[k].rendered == t[k].rendered
    ensures Reconcile(t, listing)[k].modified >= t[k].modified
  {
  }

  /** Running the log update twice over the same listing changes nothing the second time. */
  lemma ReconcileIdempotent(t: Table, listing: seq<DirEntry>)
    requires DistinctNames(listing)
    ensures Reconcile(Reconcile(t, listing), listing) == Reconcile(t, listing)
  {
    var once := Reconcile(t, listing);
    ReconcileKeys(t, listing);
    forall i | 0 <= i < |listing| && IsMaterialFile(listing[i].name)
      ensures listing[i].name in once && once[listing[i].name].modified >= listing[i].mtime
    {
      InsertPassEntry(t, listing, i);
    }
    InsertPassFixpoint(once, listing);
    assert Prune(once, Names(listing)) == once;
  }

  /** The rows of the table considered stale. */
  function StaleNames(t: Table): set<string>
  {
    set k | k in t && IsStale(t[k])
  }

  /** The material identities of the output entries, one per entry. */
  function ExistingSwatches(outputs: seq<string>): (ids: seq<string>)
    ensures forall m :: m in ids <==> exists j :: 0 <= j < |outputs| && SwatchIdentity(outputs[j]) == m
  {
    var ids := seq(|outputs|, j requires 0 <= j < |outputs| => SwatchIdentity(outputs[j]));
    assert forall j :: 0 <= j < |outputs| ==> ids[j] == SwatchIdentity(outputs[j]);
    ids
  }

  /** The recorded names with no swatch among the output entries. */
  function MissingSwatches(t: Table, outputs: seq<string>): (missing: set<string>)
    ensures forall k :: k in missing <==>
              k in t && forall j :: 0 <= j < |outputs| ==> SwatchIdentity(outputs[j]) != k
  {
    set k | k in t && k !in ExistingSwatches(outputs)
  }

  /**
   The rendering tasks: every stale record, and every record whose swatch is
   missing from the output directory whether it is stale or not.
   */
  function TaskSet(t: Table, outputs: seq<string>): (tasks: set<string>)
    ensures forall k :: k in tasks <==>
              k in t && (IsStale(t[k]) || forall j :: 0 <= j < |outputs| ==> SwatchIdentity(outputs[j]) != k)
  {
    StaleNames(t) + MissingSwatches(t, outputs)
  }

  /**
   Every stale record is a task whatever the output directory holds, every
   record missing its swatch is a task whether stale or not, and a record that
   is neither is not a task.
   */
  lemma StaleAreTasks(t: Table, outputs: seq<string>)
    ensures StaleNames(t) <= TaskSet(t, outputs)
    ensures MissingSwatches(t, outputs) <= TaskSet(t, outputs)
    ensures forall k :: k in t && !IsStale(t[k]) && k in ExistingSwatches(outputs) ==> k !in TaskSet(t, outputs)
  {
  }

  /**
   The batch completion: every named record present in the table gets the
   one shared rendered time; absent names are ignored; modified times and
   every other record stay as they were.
   */
  function MarkRendered(t: Table, rendered: seq<string>, now: int): (r: Table)
    ensures r.Keys == t.Keys
    ensures forall k :: k in t && k in rendered ==> r[k] == Record(t[k].modified, now)
    ensures forall k :: k in t && k !in rendered ==> r[k] == t[k]
  {
    map k | k in t :: if k in rendered then t[k].(rendered := now) else t[k]
  }

  /**
   After a batch is marked rendered, a material of the batch rendered no
   earlier than its last change, whose swatch name is among the outputs, is no longer
   a task; every material outside the batch is a task exactly as before.
   */
  lemma MarkRenderedTasks(t: Table, outputs: seq<string>, rendered: seq<string>, now: int)
    requires forall m :: m in rendered ==> m + SwatchSuffix in outputs
    ensures forall k :: k in t && k in rendered && t[k].modified <= now ==>
              k !in TaskSet(MarkRendered(t, rendered, now), outputs)
    ensures forall k :: k !in rendered ==>
              (k in TaskSet(MarkRendered(t, rendered, now), outputs) <==> k in TaskSet(t, outputs))
  {
  }
}

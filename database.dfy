/**
 The materials database: one table of material records that the log update
 synchronises with the materials directory, that yields the rendering tasks,
 and that records each completed render batch. SQL, the connection and the
 filesystem are replaced by the table field and by listing parameters.
 */
module Database {
  import opened Naming
  import opened Records
  import opened Messages

  predicate NoDuplicates(s: seq<string>)
  {
    forall i, j :: 0 <= i < j < |s| ==> s[i] != s[j]
  }

  /** A list holding each element of a set once, in an order of its own choosing. */
  method ListOf(s: set<string>) returns (r: seq<string>)
    ensures forall x :: x in r <==> x in s
    ensures NoDuplicates(r)
    ensures |r| == |s|
  {
    r := [];
    var remaining := s;
    while remaining != {}
      invariant remaining <= s
      invariant forall x :: x in r <==> x in s && x !in remaining
      invariant NoDuplicates(r)
      invariant |r| + |remaining| == |s|
      decreases remaining
    {
      var x :| x in remaining;
      r := r + [x];
      remaining := remaining - {x};
    }
  }

  class MaterialsDb {
    /** The materials table: material file name to its modified and rendered times. */
    var table: Table

    /** Opening the database creates the table when absent and keeps the rows it already has. */
    constructor Open(rows: Table)
      ensures table == rows
    {
      table := rows;
    }

    /**
     The insert/update pass. The table is read once before the loop; each
     material scene of the listing is then inserted when that snapshot does
     not know it, or has its modified time raised when the scene is newer.
     */
    method InsertNewMaterials(listing: seq<DirEntry>)
      requires DistinctNames(listing)
      modifies this
      ensures table == InsertPass(old(table), listing)
    {
      var existing := table;
      var i := 0;
      while i < |listing|
        invariant 0 <= i <= |listing|
        invariant table == InsertPass(existing, listing[..i])
      {
        var entry := listing[i];
        assert listing[..i + 1][..i] == listing[..i];
        if IsMaterialFile(entry.name) {
          assert entry.name !in MaterialNames(listing[..i]) by {
            forall j | 0 <= j < i ensures listing[..i][j].name != entry.name {
              assert listing[..i][j] == listing[j];
            }
          }
          InsertPassOthers(existing, listing[..i], entry.name);
          if entry.name !in existing {
            table := table[entry.name := Record(entry.mtime, NeverRendered)];
          } else if entry.mtime > existing[entry.name].modified {
            table := table[entry.name := table[entry.name].(modified := entry.mtime)];
          }
        }
        i := i + 1;
      }
      assert listing[..i] == listing;
    }

    /** The prune pass: delete every record whose name is not a directory entry. */
    method DeleteFromDb(dirEntries: seq<string>)
      modifies this
      ensures table == Prune(old(table), dirEntries)
    {
      var filesToDelete := FilesToDelete(table, dirEntries);
      if filesToDelete != {} {
        table := table - filesToDelete;
      }
    }

    /** The recorded materials with no swatch among the output entries, each once. */
    method CheckSwatches(outputs: seq<string>) returns (missing: seq<string>)
      ensures forall m :: m in missing <==>
                m in table && forall j :: 0 <= j < |outputs| ==> SwatchIdentity(outputs[j]) != m
      ensures NoDuplicates(missing)
    {
      missing := [];
      var materialsInDb := ListOf(table.Keys);
      var existingSwatches := ExistingSwatches(outputs);
      for i := 0 to |materialsInDb|
        invariant forall m :: m in missing <==> m in materialsInDb[..i] && m !in existingSwatches
        invariant NoDuplicates(missing)
      {
        var material := materialsInDb[i];
        assert materialsInDb[..i + 1] == materialsInDb[..i] + [material];
        if material !in existingSwatches {
          missing := missing + [material];
        }
      }
      assert materialsInDb[..|materialsInDb|] == materialsInDb;
    }

    /**
     The task list: the stale records together with the records missing a
     swatch, each once, and the summary sentence for it.
     */
    method GenerateTasks(outputs: seq<string>) returns (tasks: seq<string>, message: string)
      ensures forall m :: m in tasks <==> m in TaskSet(table, outputs)
      ensures NoDuplicates(tasks) && |tasks| == |TaskSet(table, outputs)|
      ensures message == UpToDateMessage <==> TaskSet(table, outputs) == {}
      ensures message == TaskMessage(tasks)
    {
      var materialTasks := ListOf(StaleNames(table));
      var missingSwatches := CheckSwatches(outputs);
      var taskSet := (set m | m in materialTasks) + (set m | m in missingSwatches);
      assert forall m :: m in taskSet <==> m in TaskSet(table, outputs);
      assert taskSet == TaskSet(table, outputs);
      tasks := ListOf(taskSet);
      message := TaskMessage(tasks);
    }

    /** Batch completion: stamp one shared rendered time on every named record. */
    method UpdateDb(rendered: seq<string>, now: int)
      modifies this
      ensures table == MarkRendered(old(table), rendered, now)
    {
      var i := 0;
      while i < |rendered|
        invariant 0 <= i <= |rendered|
        invariant table == MarkRendered(old(table), rendered[..i], now)
      {
        var material := rendered[i];
        assert rendered[..i + 1] == rendered[..i] + [material];
        if material in table {
          table := table[material := table[material].(rendered := now)];
        }
        i := i + 1;
      }
      assert rendered[..i] == rendered;
    }

    /** The log update: the insert/update pass, then the prune pass, over one directory listing. */
    method UpdateLog(listing: seq<DirEntry>)
      requires DistinctNames(listing)
      modifies this
      ensures table == Reconcile(old(table), listing)
    {
      InsertNewMaterials(listing);
      DeleteFromDb(Names(listing));
    }
  }

  /**
   Of two stale scenes only the one that rendered is marked, and its swatch is
   written; the next task list holds just the one that failed.
   */
  method FailedRenderStaysTask()
  {
    var db := new MaterialsDb.Open(map["wood.mb" := Record(5, NeverRendered), "metal.mb" := Record(7, NeverRendered)]);
    var before, outputs := db.table, ["wood.mb" + SwatchSuffix];
    db.UpdateDb(["wood.mb"], 10);
    MarkRenderedTasks(before, outputs, ["wood.mb"], 10);
    assert db.table.Keys == {"wood.mb", "metal.mb"};
    assert "metal.mb" !in ["wood.mb"];
    assert "metal.mb" in TaskSet(db.table, outputs);
    assert "wood.mb" !in TaskSet(db.table, outputs);
    assert TaskSet(db.table, outputs) == {"metal.mb"};
    var tasks, message := db.GenerateTasks(outputs);
    assert |tasks| == 1 && "metal.mb" in tasks;
    assert tasks == ["metal.mb"];
  }
}

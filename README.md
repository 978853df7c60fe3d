# Material library manager: staleness tracking and task reconciliation

This project models the database core of a Maya material library manager. The
manager keeps a SQLite table called `materials`. Each row holds a material
scene's file name (a `.mb` file in the materials directory), the scene's last
seen modification time (`date_modified`) and the time it was last rendered to
a swatch (`date_rendered`, `0.0` for never).

Four passes act on that table:

- **Insert/update.** Every `.mb` entry of the materials directory is inserted
  when unknown, with rendered time 0. A known entry has its modified time
  raised when the file is strictly newer.
- **Prune.** Records whose name is no longer a directory entry are deleted.
- **Task generation.** The tasks are the stale records (modified later than
  rendered) together with the records that have no swatch in the output
  directory. A swatch entry stands for the material named by the entry without
  its last seven characters.
- **Batch completion.** One shared rendered time is stamped on every record
  the renderer reports as done.

The log update runs insert/update first and prune second.

## Layout

- `naming.dfy` (module `Naming`): the `.mb` extension, the `.SWATCH` suffix
  the renderer is given for each swatch, and the seven-character strip (Python's `s[:-7]`).
- `records.dfy` (module `Records`): the table as `map<string, Record>` and one
  pure function per pass (`InsertPass`, `Prune`, `Reconcile`, `TaskSet`,
  `MarkRendered`). It also holds the lemmas about them: monotonic timestamps,
  what insertion stores, prune correctness, idempotence of the log update, and
  how a completed batch leaves the task list.
- `messages.dfy` (module `Messages`): the summary sentence. It is the fixed
  up-to-date sentence exactly when there are no tasks. Otherwise it spells the
  task count in decimal, and the count can be read back from it.
- `database.dfy` (module `Database`): class `MaterialsDb` with a `table`
  field. Its methods loop the way the Python methods do. Each method is proved
  against the pure function of its pass. The file ends with a client method,
  `FailedRenderStaysTask`, that replays one cycle: of two stale scenes only
  the one that rendered is stamped, and the next task list holds only the one
  that failed.

The filesystem is replaced by parameters:

- the materials directory listing is a `seq<DirEntry>` of names and
  modification times with distinct names;
- the output directory listing is a `seq<string>`;
- the value `time.time()` returns is an `int` parameter of `UpdateDb`.

Timestamps are integers, because only `>` and equality are used on them.

Two behaviours of the code are easy to misread:

- Prune keeps a record when its name is any entry of the materials directory,
  `.mb` or not, not only when it is an observed scene.
- A swatch's material is recovered by dropping the last seven characters of
  every output entry, whatever the entry is. Entries of seven characters or
  fewer map to the empty name. They are not rejected.

## Model

| member | source | states |
|---|---|---|
| `Naming.SwatchIdentity` | scripts/database.py:84 | the identity has length max(0, len-7) and is a prefix of the entry, i.e. the entry without its last seven characters, empty for short entries |
| `Naming.SwatchOfMaterial` | app/render_script.py:31 | the swatch name the renderer is given (material + ".SWATCH") maps back to exactly that material |
| `Records.Upsert` | scripts/database.py:57-68 | one scene: unknown names are inserted with their mtime and rendered 0; known names get the larger of the two modified times and keep their rendered time; no other row changes |
| `Records.InsertPass` | scripts/database.py:53-68 | after the pass the table's names are the old names plus the `.mb` names of the listing; no stored modified time decreases and no rendered time changes |
| `Records.MaterialNamesMembers` | scripts/database.py:53-54 | the material names of a listing (`MaterialNames`) are `.mb` entry names of the listing only, and every `.mb` entry name is one |
| `Records.InsertPassOthers` | scripts/database.py:53-54 | a name that is not a `.mb` entry of the listing keeps its presence and its row unchanged |
| `Records.InsertPassEntry` | scripts/database.py:59-68 | each `.mb` entry ends in the table: Record(mtime, 0) if it was new, otherwise the maximum of both modified times with the rendered time kept |
| `Records.InsertedIsStale` | scripts/database.py:59-63 | a newly inserted scene is stale exactly when its mtime is positive |
| `Records.InsertPassFixpoint` | scripts/database.py:64-68 | when every scene is already recorded with a modified time at least its mtime, the pass leaves the table unchanged |
| `Records.Prune` | scripts/database.py:137-151 | removing the deletion set (`FilesToDelete`, the recorded names absent from the directory): a record survives exactly when its name is a directory entry of any kind, and survivors keep their fields |
| `Records.Reconcile` | scripts/database.py:165-169 | after insert-then-prune every remaining name is a directory entry, and a recorded name still in the directory keeps its rendered time |
| `Records.ReconcileKeys` | scripts/database.py:165-169 | after insert-then-prune the table holds exactly the old or `.mb` names that are still in the directory; every `.mb` entry is recorded |
| `Records.ReconcileKeepsRendered` | scripts/database.py:165-169 | a recorded name still in the directory survives the log update with its rendered time and a modified time that did not decrease |
| `Records.ReconcileIdempotent` | scripts/database.py:165-169 | running the log update again with the same listing leaves the table as the first run left it |
| `Records.StaleAreTasks` | scripts/database.py:98-105 | every stale record (date_modified > date_rendered) is a task whatever the output directory holds, every record missing its swatch is a task, and a record that is neither is not a task |
| `Records.MissingSwatches` | scripts/database.py:86-88 | exactly the recorded names that no output entry's identity equals |
| `Records.ExistingSwatches` | scripts/database.py:83-84 | a name is an existing swatch exactly when some output entry's identity equals it |
| `Records.TaskSet` | scripts/database.py:98-105 | a name is a task exactly when it is recorded and is stale (the stale half, `StaleNames`) or has no output entry whose identity equals it |
| `Records.MarkRendered` | scripts/database.py:119-124 | named records present in the table get the one shared rendered time; absent names are ignored; modified times and every other row are unchanged |
| `Records.MarkRenderedTasks` | scripts/database.py:119-124 | after a batch whose swatches were written, a batch member rendered no earlier than its last change is no longer a task; names outside the batch are tasks exactly as before |
| `Messages.NatToString` | scripts/database.py:110 | the count is spelled with decimal digits only, with a leading zero only for zero |
| `Messages.NatToStringValue` | scripts/database.py:110 | the decimal spelling of the count denotes the count |
| `Messages.Join` | scripts/database.py:110 | a non-empty join starts with the first part, and its length is the parts' total length plus one separator between each two parts |
| `Messages.JoinSnoc` | scripts/database.py:110 | joining one more part appends the separator and then that part, so the names appear in list order with one separator between each two |
| `Messages.TaskMessage` | scripts/database.py:107-110 | the message is the fixed up-to-date sentence exactly when the task list is empty; otherwise the number it reports is the list's length |
| `Database.ListOf` | scripts/database.py:105 | the list holds each element of the set exactly once and has the set's size |
| `Database.MaterialsDb.Open` | scripts/database.py:15-33 | opening the store keeps the rows it already holds |
| `Database.MaterialsDb.InsertNewMaterials` | scripts/database.py:37-72 | the loop over the listing, reading the pre-loop snapshot, produces InsertPass of the old table |
| `Database.MaterialsDb.DeleteFromDb` | scripts/database.py:130-155 | the new table is Prune of the old table against the directory entries |
| `Database.MaterialsDb.CheckSwatches` | scripts/database.py:74-92 | returns exactly the recorded names that no output entry's identity equals, each once |
| `Database.MaterialsDb.GenerateTasks` | scripts/database.py:94-114 | the task list holds each element of TaskSet exactly once; the message is the up-to-date sentence exactly when TaskSet is empty |
| `Database.MaterialsDb.UpdateDb` | scripts/database.py:116-128 | the new table is MarkRendered of the old one with the single given time |
| `Database.MaterialsDb.UpdateLog` | scripts/database.py:165-173 | the new table is the insert/update pass followed by the prune pass over the same listing |

## Left out

- The SQLite connection, cursor, `CREATE TABLE`, `commit` and `close_db`/`__exit__` (scripts/database.py:15-35, 157-163, 175-176) are resource handling. The table is a map field. Each method is all-or-nothing, as the single commit after each batch makes it. Transactions and rollback are not modelled.
- The surrogate `id` column is left out. Every lookup in the code is by `material_name`, so a map keyed by name is faithful. The insert pass never adds a second row for a known name, because the listing has distinct names.
- `DBException` wrapping of `sqlite3.Error` and `OSError` is not modelled. It carries no logic, and which library or filesystem calls fail is not visible to the model.
- `os.listdir`, `os.path.getmtime` and `os.path.join` become the listing parameters. `update_log` lists the directory twice, once in each pass. The model passes one listing to both, so a directory that changes between the two listings is not modelled.
- Timestamps are integers, not REAL/float. `time.time()` is the `now` parameter of `UpdateDb`.
- MarkRendered: sets the rendered time to `now` whatever it is. That a rendered time never decreases holds only if the clock never goes back, which the model does not assume.
- The order of rows returned by `SELECT` and the order of `list(set(...))` are unspecified in the source. `ListOf` and `CheckSwatches` promise the elements, not an order.
- TaskMessage: its contract states the up-to-date case and the reported count. The comma-separated task names after the count are built but not characterised.
- scripts/main.py (the Maya window, buttons and directory checks) is host-environment UI code. app/render_script.py (Maya and Arnold calls) is too. Only its naming of swatches (render_script.py:31) is used, in `SwatchOfMaterial`, `MarkRenderedTasks` and `FailedRenderStaysTask`.
- MarkRenderedTasks: assumes the renderer writes a file named exactly material + ".SWATCH" into the output directory. app/render_script.py:16,31 only passes that string to Arnold as the image file prefix, and the file name Arnold actually writes is not visible to the model.

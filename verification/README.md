# Classly seat-plan generator and constraint store, in Dafny

Classly keeps classes, their students and two kinds of seating wishes: a
student may be flagged to sit at the front (`placer_devant`) or at the back
(`placer_derriere`), and two students may be marked as "not next to each
other" (an exclusion). `GenerateurPlan.generer` builds a seating plan for a
class with `nb_rows * nb_cols` tables of `places_par_table` seats each.

This project models, in `backend_with_pdf.py`:

- the plan generator (`plan.dfy`): the roster is split into the front group,
  the unflagged students and the back group; each group is shuffled; the
  groups are laid end to end (`liste_triee`); that list is poured into the
  grid table by table and seat by seat, and the seats left over stay empty;
- the part of `DatabaseManager` behind it (`store.dfy`), as a class whose
  three tables are sequences of rows and whose `AUTOINCREMENT` keys are
  counters: adding and deleting classes (with the cascade to students and
  exclusions), the row insert of the CSV import, reading a class's students,
  setting a priority flag, adding or deleting an exclusion and listing a
  student's exclusion partners;
- what the plan guarantees (`plan_properties.dfy`): the shape of the grid,
  the filled seats forming a prefix in fill order that holds the head of
  `liste_triee`, the number of students seated, each seated at most once,
  the front/unflagged/back order, and which students are dropped when the
  room is too small.

`random.shuffle` is replaced by `Shuffling.Shuffle`, driven by a sequence of
draws handed in by the caller. `Shuffle`'s own contract says that whatever the
draws, the result is a reordering of the group, and
`ShuffleReachesEveryPermutation` shows that every reordering comes out for
some draws; together they make the plans the model can produce exactly the
plans the program can produce.

The generator never reads the exclusion table, and no property here claims
that two excluded students sit apart: `ExcludedPairMayShareTable` shows a
store holding an exclusion between two students whose plan seats them at the
same table. The program has no seating zones, no exclusion repair and no
status report: `generer` returns only the grid (line 133). Layout sizes are
not checked: a negative count makes Python's `range` empty, so no tables or
no seats are made, and the product of two negative counts is a positive
number of tables. A pair added twice is stored twice, because the exclusion
table has no uniqueness constraint on the pair, so `INSERT OR IGNORE` at line
96 has nothing to ignore.

## Model

| member | source | states |
|---|---|---|
| `Seqs.Filter` | backend_with_pdf.py:114-116 | A list comprehension with a condition keeps, in order, exactly the elements that satisfy it, each as often as in the input. |
| `Shuffling.Shuffle` | backend_with_pdf.py:118-120 | Shuffling a group returns a reordering of it: same length, same elements with the same multiplicities. |
| `Shuffling.ShuffleReachesEveryPermutation` | backend_with_pdf.py:118-120 | Every reordering of a group is the outcome of some draws, so the draws stand for any permutation `random.shuffle` may pick. |
| `Store.Constrain` | backend_with_pdf.py:81-90 | Setting a flag to 1 clears the other one; any other value goes to the named flag alone; no other column changes; writing 1 leaves at most one flag set, writing 0 keeps that so. |
| `Store.ConstrainOtherValueBreaksExclusivity` | backend_with_pdf.py:88-89 | Writing a value other than 0 or 1 goes through the generic branch and can leave both flags set. |
| `Store.DatabaseManager.constructor` | backend_with_pdf.py:13-35 | A new store has empty tables and satisfies the schema's constraints. |
| `Store.DatabaseManager.AddClass` | backend_with_pdf.py:67-71 | Returns false and changes nothing when the name is taken (UNIQUE at line 22); otherwise appends the class under the next id and returns true; the other tables are untouched. |
| `Store.DatabaseManager.DeleteClass` | backend_with_pdf.py:73-74 | The class goes, and with it, by the cascades of lines 29 and 34, its students and its exclusions; every other row stays. |
| `Store.DatabaseManager.AddEleve` | backend_with_pdf.py:55-56 | The insert of one imported student: refused by the foreign key when the class is missing, otherwise appended under the next id with sex "M", as the import always records, and both flags 0. |
| `Store.DatabaseManager.GetEleves` | backend_with_pdf.py:76-79 | Returns exactly the students of the class, none twice. |
| `Store.DatabaseManager.UpdateContrainte` | backend_with_pdf.py:81-90 | Only the row with id `eid` changes, by `Constrain`; the other rows and tables stay; writing 0 or 1 keeps every student's flags mutually exclusive. |
| `Store.DatabaseManager.ManageExclusion` | backend_with_pdf.py:92-99 | The pair is stored as (min, max), so the argument order never matters. "add" appends a row under the next id, moving the id counter on, even if the pair is already there; it is refused by the foreign key when the class is missing, and afterwards each id is among the other's partners. Any other action removes every row of that class linking the two ids and keeps all other rows and the counter. |
| `Store.DatabaseManager.GetExclusionsIds` | backend_with_pdf.py:101-104 | `y` is returned exactly when some row, of any class, links `eid` and `y` in either column order. |
| `Store.DatabaseManager.ExclusionsSymmetric` | backend_with_pdf.py:101-104 | `y` is a partner of `x` exactly when `x` is a partner of `y`. |
| `Plan.Devant` | backend_with_pdf.py:114 | `devant` holds exactly the roster's students whose front flag is set; `PlanProperties.GroupsMultiset` counts them. |
| `Plan.Derriere` | backend_with_pdf.py:115 | `derriere` holds exactly the roster's students whose back flag is set; `PlanProperties.GroupsMultiset` counts them. |
| `Plan.Autres` | backend_with_pdf.py:116 | `autres` holds exactly the roster's students with neither flag set; `PlanProperties.GroupsMultiset` counts them. |
| `Plan.ListeTriee` | backend_with_pdf.py:118-122 | `liste_triee` is as long as the three groups together; `PlanProperties.ListeTrieeSegments`, `ListeTrieeMultiset` and `ListeTrieeByPriority` state its blocks, contents and order. |
| `Plan.FillGrid` | backend_with_pdf.py:124-132 | The grid has the requested number of tables, each with the requested number of seats, and seat `p` of table `t` holds element `t * places + p` of the list, or is empty when the list is shorter. |
| `Plan.GenerateurPlan.constructor` | backend_with_pdf.py:107-108 | The generator works on the store it is given. |
| `Plan.GenerateurPlan.Generer` | backend_with_pdf.py:110-133 | The plan has `nb_rows * nb_cols` tables (none if negative) of `places_par_table` seats, filled row-major from `liste_triee`, the shuffled front group, unflagged students and back group of the class. |
| `PlanProperties.ListeTrieeSegments` | backend_with_pdf.py:114-122 | `liste_triee` is three blocks: students flagged for the front, then students with no flag, then students flagged for the back. |
| `PlanProperties.GroupsMultiset` | backend_with_pdf.py:114-116 | The three groups together hold the roster plus one extra copy of each student flagged both ways. |
| `PlanProperties.NoBothFlags` | backend_with_pdf.py:114-116 | When no student has both flags, no student is in both the front and the back group. |
| `PlanProperties.ListeTrieeMultiset` | backend_with_pdf.py:114-122 | `liste_triee` is the roster plus a second copy of each student flagged both ways; without such students it is a permutation of the roster. |
| `PlanProperties.BothFlagsListedTwice` | backend_with_pdf.py:114-122 | A student flagged both ways is listed twice as often as on the roster. |
| `PlanProperties.ListeTrieeByPriority` | backend_with_pdf.py:114-122 | Without students flagged both ways, front-flagged students come before unflagged ones, who come before back-flagged ones. |
| `PlanProperties.FlattenPoured` | backend_with_pdf.py:127-132 | Read table by table and seat by seat, the grid holds the list's element at each position while the list lasts, then empty seats. |
| `PlanProperties.SeatedOfSlots` | backend_with_pdf.py:127-132 | Seats filled from a list, in order, hold the head of that list. |
| `PlanProperties.PlanFillsPrefix` | backend_with_pdf.py:124-132 | No empty seat comes before an occupied one in fill order, and the occupants are the first `min(len(liste_triee), capacity)` students of `liste_triee`; the rest are dropped without a report. |
| `PlanProperties.PlanSeatsEachOnce` | backend_with_pdf.py:114-132 | Without students flagged both ways, `min(len(eleves), capacity)` students are seated, all from the roster, none twice, and the whole roster when it fits. |
| `PlanProperties.PlanSeatsByPriority` | backend_with_pdf.py:114-132 | Without students flagged both ways, in fill order every front-flagged student is seated before every unflagged one, who is seated before every back-flagged one. |
| `PlanProperties.OverflowDropsBackGroupFirst` | backend_with_pdf.py:122-132 | When the room is too small, the dropped students come from the tail of `liste_triee`: back-flagged students go first. |
| `PlanProperties.ExcludedPairMayShareTable` | backend_with_pdf.py:110-133 | The exclusion table plays no part: in a store where students 1 and 2 of class 1 are each other's exclusion partners and make up the class, the plan with one table of two seats puts both at that table. |

## Left out

- The SQLite connection, schema creation and commits: the tables live in memory, and a new store starts empty where the program opens an existing database file.
- `importer_csv_pronote`: file reading, delimiter detection and the name split by regular expression are library calls; only the insert of one student row (`AddEleve`) is modelled. The import's catch-all error handling, which returns 0, is not.
- `get_classes`: a plain read of the `classes` table; the model reads the `classes` field.
- `Store.DatabaseManager.GetEleves`: does not model the `ORDER BY nom` sort. Each group is shuffled right after, and every reordering is reachable through the draws, so the sort does not change which plans can come out.
- `Shuffling.Shuffle`: the draws stand for `random.shuffle`'s random choices; the uniform distribution of those choices is not modelled.
- `Store.DatabaseManager.UpdateContrainte`: models only the two column names the program passes (`placer_devant`, `placer_derriere`) and integer values; the f-string update at line 89 would accept any column name.
- `Store.DatabaseManager.ManageExclusion`: the foreign-key failure of "add" for a missing class raises an exception in the program; the model reports it as `ok == false` with nothing changed.
- `exporter_pdf`: page drawing and floating-point geometry. It draws table `r * nb_cols + col` at row `r`, with row 0 at the front, which is why fill order puts the front group in the front rows.
- `app_with_pdf.py`: the user interface; it only calls the operations above.

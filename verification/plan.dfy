/** `GenerateurPlan.generer`: the seating plan of one class.

    The roster is split by the two priority flags, each group is shuffled,
    and the groups are laid end to end, front group first and back group
    last (`ListeTriee`). That list is then poured, seat after seat and table
    after table, into a grid of `nb_rows * nb_cols` tables of
    `places_par_table` seats; seats left over stay empty. Table `t` is drawn
    at row `t / nb_cols`, row 0 being the front of the room. */
module Plan {
  import opened Seqs
  import opened Shuffling
  import opened Store

  /** A student with neither priority flag. */
  predicate IsAutre(e: Eleve) { !IsDevant(e) && !IsDerriere(e) }

  /** A student with both priority flags set. */
  predicate HasBothFlags(e: Eleve) { IsDevant(e) && IsDerriere(e) }

  /** The students flagged for the front (`devant`), in roster order. */
  function Devant(eleves: seq<Eleve>): (r: seq<Eleve>)
    ensures forall e :: e in r <==> e in eleves && IsDevant(e)
  {
    Filter(eleves, IsDevant)
  }

  /** The students flagged for the back (`derriere`), in roster order. */
  function Derriere(eleves: seq<Eleve>): (r: seq<Eleve>)
    ensures forall e :: e in r <==> e in eleves && IsDerriere(e)
  {
    Filter(eleves, IsDerriere)
  }

  /** The students with neither flag (`autres`), in roster order. */
  function Autres(eleves: seq<Eleve>): (r: seq<Eleve>)
    ensures forall e :: e in r <==> e in eleves && IsAutre(e)
  {
    Filter(eleves, IsAutre)
  }

  /** The students with both flags set: they are in `devant` and in `derriere`. */
  function BothFlags(eleves: seq<Eleve>): (r: seq<Eleve>)
  {
    Filter(eleves, HasBothFlags)
  }

  /** `liste_triee`: the shuffled front group, then the shuffled unflagged
      students, then the shuffled back group; together, the three groups
      reordered. */
  function ListeTriee(eleves: seq<Eleve>, drawsDevant: seq<nat>, drawsAutres: seq<nat>,
                      drawsDerriere: seq<nat>): (r: seq<Eleve>)
    ensures |r| == |Devant(eleves)| + |Autres(eleves)| + |Derriere(eleves)|
  {
    Shuffle(Devant(eleves), drawsDevant) + Shuffle(Autres(eleves), drawsAutres)
      + Shuffle(Derriere(eleves), drawsDerriere)
  }

  /** How many times `range(n)` runs: never for a negative `n`. */
  function Count(n: int): nat
  {
    if n < 0 then 0 else n
  }

  /** The content of the seat at fill position `k`: the `k`-th student of
      the list, or empty once the list is used up. */
  function Slot<T>(liste: seq<T>, k: nat): Option<T>
  {
    if k < |liste| then Some(liste[k]) else None
  }

  /** `plan` has `tables` tables of `places` seats, and seat `p` of table `t`
      holds `Slot(liste, t * places + p)`: the list poured in row-major order. */
  ghost predicate Poured<T>(plan: seq<seq<Option<T>>>, liste: seq<T>, tables: nat, places: nat)
  {
    && |plan| == tables
    && (forall t :: 0 <= t < tables ==> |plan[t]| == places)
    && (forall t, p :: 0 <= t < tables && 0 <= p < places ==> plan[t][p] == Slot(liste, t * places + p))
  }

  /** Lines 125-132 of `generer`: a grid of `tables` empty tables of `places`
      seats, then a walk over the tables and, within each, over its seats,
      placing the next student of `liste` while there is one. */
  method FillGrid<T>(liste: seq<T>, tables: nat, places: nat) returns (plan: seq<seq<Option<T>>>)
    ensures Poured(plan, liste, tables, places)
  {
    plan := seq(tables, _ => seq(places, _ => None));
    var idx := 0;
    ghost var base := 0;  // t * places: the fill position of the first seat of table t
    for t := 0 to tables
      invariant base == t * places
      invariant |plan| == tables
      invariant forall u :: 0 <= u < tables ==> |plan[u]| == places
      invariant idx <= |liste|
      invariant idx < |liste| ==> idx == base
      invariant idx == |liste| ==> base >= idx
      invariant forall u, q :: 0 <= u < tables && 0 <= q < places ==>
        plan[u][q] == if u < t then Slot(liste, u * places + q) else None
    {
      for p := 0 to places
        invariant |plan| == tables
        invariant forall u :: 0 <= u < tables ==> |plan[u]| == places
        invariant idx <= |liste|
        invariant idx < |liste| ==> idx == base + p
        invariant idx == |liste| ==> base + p >= idx
        invariant forall u, q :: 0 <= u < tables && 0 <= q < places ==>
          plan[u][q] == if u < t || (u == t && q < p) then Slot(liste, u * places + q) else None
      {
        if idx < |liste| {
          plan := plan[t := plan[t][p := Some(liste[idx])]];
          idx := idx + 1;
        }
      }
      base := base + places;
    }
  }

  class GenerateurPlan {
    const db: DatabaseManager

    constructor (db: DatabaseManager)
      ensures this.db == db
    {
      this.db := db;
    }

    /** `generer`: the plan of class `classId`, `nb_rows * nb_cols` tables of
        `places_par_table` seats filled from `liste_triee` (a negative count
        of tables or seats makes Python's `range` empty). `random.shuffle`
        of the three groups is replaced by the draws the caller hands in. */
    method Generer(classId: int, nbRows: int, nbCols: int, placesParTable: int,
                   drawsDevant: seq<nat>, drawsAutres: seq<nat>, drawsDerriere: seq<nat>)
      returns (plan: seq<seq<Option<Eleve>>>)
      ensures Poured(plan, ListeTriee(db.GetEleves(classId), drawsDevant, drawsAutres, drawsDerriere),
                     Count(nbRows * nbCols), Count(placesParTable))
    {
      var eleves := db.GetEleves(classId);
      var listeTriee := ListeTriee(eleves, drawsDevant, drawsAutres, drawsDerriere);
      var nbTables := nbRows * nbCols;
      plan := FillGrid(listeTriee, Count(nbTables), Count(placesParTable));
    }
  }
}

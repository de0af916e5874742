/** The class, student and exclusion tables kept by `DatabaseManager`,
    held in memory: each SQL table is a sequence of rows, each
    `AUTOINCREMENT` primary key a counter. */
module Store {
  import opened Seqs

  /** A row of `classes`: `nom` is UNIQUE. */
  datatype Classe = Classe(id: int, nom: string)

  /** A row of `eleves`. The two priority flags are plain integers, read as
      Python truth values (anything but 0 is set). */
  datatype Eleve = Eleve(
    id: int, classId: int, nom: string, prenom: string, sexe: string,
    placerDevant: int, placerDerriere: int)

  /** A row of `exclusions`: two students who should not sit together. */
  datatype Exclusion = Exclusion(id: int, classId: int, eleve1: int, eleve2: int)

  /** The priority column that `update_contrainte` is asked to set. */
  datatype Champ = PlacerDevant | PlacerDerriere

  predicate IsDevant(e: Eleve) { e.placerDevant != 0 }

  predicate IsDerriere(e: Eleve) { e.placerDerriere != 0 }

  /** At most one of the two priority flags is set. */
  predicate FlagsExclusive(e: Eleve) { !(IsDevant(e) && IsDerriere(e)) }

  /** What `update_contrainte` does to the row it targets. Setting a flag
      to 1 clears the other one; any other value is written to the named
      flag alone. */
  function Constrain(e: Eleve, champ: Champ, val: int): (r: Eleve)
    ensures r.(placerDevant := e.placerDevant, placerDerriere := e.placerDerriere) == e
    ensures champ == PlacerDevant ==>
      r.placerDevant == val && r.placerDerriere == (if val == 1 then 0 else e.placerDerriere)
    ensures champ == PlacerDerriere ==>
      r.placerDerriere == val && r.placerDevant == (if val == 1 then 0 else e.placerDevant)
    ensures val == 1 ==> FlagsExclusive(r)
    ensures val == 0 && FlagsExclusive(e) ==> FlagsExclusive(r)
  {
    match champ
    case PlacerDevant =>
      if val == 1 then e.(placerDevant := 1, placerDerriere := 0) else e.(placerDevant := val)
    case PlacerDerriere =>
      if val == 1 then e.(placerDevant := 0, placerDerriere := 1) else e.(placerDerriere := val)
  }

  /** The flags can only end up both set when a value other than 0 and 1
      is written: the tick boxes of the user interface only ever write 0 or 1. */
  lemma ConstrainOtherValueBreaksExclusivity()
    ensures var e := Eleve(1, 1, "A", "B", "M", 0, 1);
      FlagsExclusive(e) && !FlagsExclusive(Constrain(e, PlacerDevant, 2))
  {
  }

  /** `row` records an exclusion between `x` and `y`, in either column order. */
  predicate Links(row: Exclusion, x: int, y: int)
  {
    (row.eleve1 == x && row.eleve2 == y) || (row.eleve2 == x && row.eleve1 == y)
  }

  /** `row` is the row `manage_exclusion` deletes for class `cid` and the
      pair stored as (`low`, `high`). */
  predicate Matches(row: Exclusion, cid: int, low: int, high: int)
  {
    row.classId == cid && row.eleve1 == low && row.eleve2 == high
  }

  class DatabaseManager {
    var classes: seq<Classe>
    var eleves: seq<Eleve>
    var exclusions: seq<Exclusion>
    /** The next ids the three `AUTOINCREMENT` keys hand out. */
    var nextClassId: int
    var nextEleveId: int
    var nextExclusionId: int

    /** The constraints of the schema (unique primary keys, below the next
        `AUTOINCREMENT` value; unique class names), and the canonical (lower
        id first) order in which `manage_exclusion` stores a pair. */
    ghost predicate Valid()
      reads this
    {
      && (forall c, d :: c in classes && d in classes && c.nom == d.nom ==> c == d)
      && (forall c, d :: c in classes && d in classes && c.id == d.id ==> c == d)
      && NoDuplicates(classes)
      && (forall c :: c in classes ==> c.id < nextClassId)
      && (forall e, f :: e in eleves && f in eleves && e.id == f.id ==> e == f)
      && NoDuplicates(eleves)
      && (forall e :: e in eleves ==> e.id < nextEleveId)
      && (forall x, y :: x in exclusions && y in exclusions && x.id == y.id ==> x == y)
      && (forall x :: x in exclusions ==> x.id < nextExclusionId && x.eleve1 <= x.eleve2)
    }

    /** A fresh, empty database. */
    constructor ()
      ensures Valid()
      ensures classes == [] && eleves == [] && exclusions == []
    {
      classes, eleves, exclusions := [], [], [];
      nextClassId, nextEleveId, nextExclusionId := 1, 1, 1;
    }

    /** Whether class `cid` exists: the check behind every `FOREIGN KEY(class_id)`. */
    predicate HasClass(cid: int)
      reads this
    {
      exists c :: c in classes && c.id == cid
    }

    /** `add_class`: refused (false, nothing changes) when the name is
        already taken, because of the UNIQUE column. */
    method AddClass(nom: string) returns (ok: bool)
      requires Valid()
      modifies this
      ensures Valid()
      ensures ok <==> forall c :: c in old(classes) ==> c.nom != nom
      ensures classes == if ok then old(classes) + [Classe(old(nextClassId), nom)] else old(classes)
      ensures nextClassId == if ok then old(nextClassId) + 1 else old(nextClassId)
      ensures eleves == old(eleves) && exclusions == old(exclusions)
      ensures nextEleveId == old(nextEleveId) && nextExclusionId == old(nextExclusionId)
    {
      ok := forall c | c in classes :: c.nom != nom;
      if ok {
        var row := Classe(nextClassId, nom);
        assert row !in classes;
        classes := classes + [row];
        nextClassId := nextClassId + 1;
      }
    }

    /** `delete_class`, with the `ON DELETE CASCADE` of both child tables:
        the class, its students and its exclusions go. */
    method DeleteClass(cid: int)
      requires Valid()
      modifies this`classes, this`eleves, this`exclusions
      ensures Valid()
      ensures forall c :: c in classes <==> c in old(classes) && c.id != cid
      ensures forall e :: e in eleves <==> e in old(eleves) && e.classId != cid
      ensures forall x :: x in exclusions <==> x in old(exclusions) && x.classId != cid
      ensures !HasClass(cid)
    {
      FilterNoDuplicates(classes, (c: Classe) => c.id != cid);
      FilterNoDuplicates(eleves, (e: Eleve) => e.classId != cid);
      var cs := Filter(classes, (c: Classe) => c.id != cid);
      var es := Filter(eleves, (e: Eleve) => e.classId != cid);
      var xs := Filter(exclusions, (x: Exclusion) => x.classId != cid);
      assert forall c :: c in cs ==> c in classes;
      assert forall e :: e in es ==> e in eleves;
      assert forall x :: x in xs ==> x in exclusions;
      classes, eleves, exclusions := cs, es, xs;
    }

    /** The row insertion of the CSV import: a new student of class `cid`,
        recorded with sex "M" as the import always does and with both flags
        at their default 0. The foreign key refuses it
        (false, nothing changes) when the class does not exist. */
    method AddEleve(cid: int, nom: string, prenom: string) returns (ok: bool)
      requires Valid()
      modifies this`eleves, this`nextEleveId
      ensures Valid()
      ensures ok <==> old(HasClass(cid))
      ensures eleves == if ok then old(eleves) + [Eleve(old(nextEleveId), cid, nom, prenom, "M", 0, 0)]
                        else old(eleves)
      ensures nextEleveId == if ok then old(nextEleveId) + 1 else old(nextEleveId)
    {
      ok := exists c | c in classes :: c.id == cid;
      if ok {
        var row := Eleve(nextEleveId, cid, nom, prenom, "M", 0, 0);
        assert row !in eleves;
        eleves := eleves + [row];
        nextEleveId := nextEleveId + 1;
      }
    }

    /** `get_eleves`: the students of class `cid`. */
    function GetEleves(cid: int): (r: seq<Eleve>)
      reads this
      ensures forall e :: e in r <==> e in eleves && e.classId == cid
      ensures Valid() ==> NoDuplicates(r)
    {
      Filter(eleves, (e: Eleve) => e.classId == cid)
    }

    /** `update_contrainte`: every row with id `eid` (there is at most one)
        gets `Constrain`; no other row and no other table changes. Writing
        0 or 1 keeps the two flags of every student exclusive. */
    method UpdateContrainte(eid: int, champ: Champ, val: int)
      requires Valid()
      modifies this`eleves
      ensures Valid()
      ensures |eleves| == |old(eleves)|
      ensures forall i :: 0 <= i < |eleves| ==>
        eleves[i] == if old(eleves[i]).id == eid then Constrain(old(eleves[i]), champ, val) else old(eleves[i])
      ensures (val == 0 || val == 1) && (forall e :: e in old(eleves) ==> FlagsExclusive(e)) ==>
        forall e :: e in eleves ==> FlagsExclusive(e)
    {
      var rows := eleves;
      eleves := seq(|rows|, i requires 0 <= i < |rows| =>
        if rows[i].id == eid then Constrain(rows[i], champ, val) else rows[i]);
      assert forall i :: 0 <= i < |rows| ==> eleves[i].id == rows[i].id;
      assert NoDuplicates(eleves) by {
        forall i, j | 0 <= i < j < |eleves|
          ensures eleves[i].id != eleves[j].id
        {
          NoDuplicatesDistinct(rows, i, j);
          assert rows[i] in rows && rows[j] in rows;
        }
        DistinctNoDuplicates(eleves);
      }
      forall e, f | e in eleves && f in eleves && e.id == f.id
        ensures e == f
      {
        var i :| 0 <= i < |eleves| && eleves[i] == e;
        var j :| 0 <= j < |eleves| && eleves[j] == f;
        assert rows[i] in rows && rows[j] in rows;
      }
    }

    /** `manage_exclusion`: the pair is stored as (min, max), so the order of
        `id1` and `id2` never matters. "add" appends a row, even when the same
        pair is already there (the table has no uniqueness on the pair), and is
        refused by the foreign key (false, nothing changes) when the class does
        not exist; any other action deletes every row of that class and pair. */
    method ManageExclusion(cid: int, id1: int, id2: int, action: string) returns (ok: bool)
      requires Valid()
      modifies this`exclusions, this`nextExclusionId
      ensures Valid()
      ensures ok <==> action != "add" || old(HasClass(cid))
      ensures action == "add" ==>
        exclusions == if ok then old(exclusions) + [Exclusion(old(nextExclusionId), cid, Min(id1, id2), Max(id1, id2))]
                      else old(exclusions)
      ensures nextExclusionId == if action == "add" && ok then old(nextExclusionId) + 1 else old(nextExclusionId)
      ensures action == "add" && ok ==> id2 in GetExclusionsIds(id1) && id1 in GetExclusionsIds(id2)
      ensures action != "add" ==>
        forall x :: x in exclusions <==> x in old(exclusions) && !(x.classId == cid && Links(x, id1, id2))
    {
      var low, high := Min(id1, id2), Max(id1, id2);
      if action == "add" {
        ok := exists c | c in classes :: c.id == cid;
        if ok {
          var row := Exclusion(nextExclusionId, cid, low, high);
          exclusions := exclusions + [row];
          nextExclusionId := nextExclusionId + 1;
          assert Links(exclusions[|exclusions| - 1], id1, id2);
          assert Links(exclusions[|exclusions| - 1], id2, id1);
        }
      } else {
        ok := true;
        exclusions := Filter(exclusions, (x: Exclusion) => !Matches(x, cid, low, high));
      }
    }

    /** `get_exclusions_ids`: the other student of every row, of any class,
        that names `eid` (`eid` itself for a row pairing it with itself). */
    function GetExclusionsIds(eid: int): (r: set<int>)
      reads this
      ensures forall y :: y in r <==> exists i :: 0 <= i < |exclusions| && Links(exclusions[i], eid, y)
    {
      set x | x in exclusions && (x.eleve1 == eid || x.eleve2 == eid) ::
        if x.eleve2 == eid then x.eleve1 else x.eleve2
    }

    /** Exclusion is symmetric: `y` is among the partners of `x` exactly
        when `x` is among the partners of `y`. */
    lemma ExclusionsSymmetric(x: int, y: int)
      ensures y in GetExclusionsIds(x) <==> x in GetExclusionsIds(y)
    {
    }
  }
}

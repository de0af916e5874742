/** What a plan from `GenerateurPlan.Generer` guarantees, and what it does not.

    Fill order is row-major: table by table, and seat by seat within a table.
    `Flatten` lists the seats in that order and `Seated` the students on them.
    The exclusion table plays no part: nothing here, and nothing in the
    generator, keeps two excluded students apart. */
module PlanProperties {
  import opened Seqs
  import opened Shuffling
  import opened Store
  import opened Plan

  /** The place of a student's group in the fill order: front group 0,
      unflagged students 1, back group 2. */
  function Rank(e: Eleve): nat
  {
    if IsDevant(e) then 0 else if IsDerriere(e) then 2 else 1
  }

  /** No student of the roster has both flags set. */
  predicate AllExclusive(eleves: seq<Eleve>)
  {
    forall e :: e in eleves ==> FlagsExclusive(e)
  }

  /** The seats of a plan in fill order. */
  function Flatten<T>(plan: seq<seq<T>>): seq<T>
  {
    if plan == [] then [] else Flatten(plan[..|plan| - 1]) + plan[|plan| - 1]
  }

  /** The occupants of a sequence of seats, in seat order. */
  function Seated<T>(slots: seq<Option<T>>): seq<T>
  {
    if slots == [] then []
    else
      var last := slots[|slots| - 1];
      Seated(slots[..|slots| - 1]) + if last.Some? then [last.value] else []
  }

  // ---------------------------------------------------------------- liste_triee

  /** `liste_triee` is the front group, then the unflagged students, then the
      back group: every position of the first block holds a student flagged
      for the front, the middle block only unflagged students, the last block
      only students flagged for the back. */
  lemma ListeTrieeSegments(eleves: seq<Eleve>, dd: seq<nat>, da: seq<nat>, db: seq<nat>)
    ensures var l := ListeTriee(eleves, dd, da, db);
      var nd, na := |Devant(eleves)|, |Autres(eleves)|;
      && |l| == nd + na + |Derriere(eleves)|
      && (forall i :: 0 <= i < nd ==> IsDevant(l[i]))
      && (forall i :: nd <= i < nd + na ==> !IsDevant(l[i]) && !IsDerriere(l[i]))
      && (forall i :: nd + na <= i < |l| ==> IsDerriere(l[i]))
  {
    var l := ListeTriee(eleves, dd, da, db);
    var sd, sa, sb := Shuffle(Devant(eleves), dd), Shuffle(Autres(eleves), da), Shuffle(Derriere(eleves), db);
    var nd, na := |sd|, |sa|;
    forall i | 0 <= i < nd
      ensures IsDevant(l[i])
    {
      ConcatIndex(sd, sa, sb, i);
      ShuffledFrom(Devant(eleves), dd, l[i]);
    }
    forall i | nd <= i < nd + na
      ensures !IsDevant(l[i]) && !IsDerriere(l[i])
    {
      ConcatIndex(sd, sa, sb, i);
      ShuffledFrom(Autres(eleves), da, l[i]);
    }
    forall i | nd + na <= i < |l|
      ensures IsDerriere(l[i])
    {
      ConcatIndex(sd, sa, sb, i);
      ShuffledFrom(Derriere(eleves), db, l[i]);
    }
  }

  /** Position `i` of `a + b + c` lies in the block its index falls in. */
  lemma ConcatIndex<T>(a: seq<T>, b: seq<T>, c: seq<T>, i: int)
    requires 0 <= i < |a + b + c|
    ensures i < |a| ==> (a + b + c)[i] in a
    ensures |a| <= i < |a| + |b| ==> (a + b + c)[i] in b
    ensures |a| + |b| <= i ==> (a + b + c)[i] in c
  {
    if i < |a| {
      assert (a + b + c)[i] == a[i];
    } else if i < |a| + |b| {
      assert (a + b + c)[i] == b[i - |a|];
    } else {
      assert (a + b + c)[i] == c[i - |a| - |b|];
    }
  }

  /** A shuffle only holds elements of its input. */
  lemma ShuffledFrom<T>(s: seq<T>, d: seq<nat>, x: T)
    ensures x in Shuffle(s, d) ==> x in s
  {
    if x in Shuffle(s, d) {
      assert x in multiset(Shuffle(s, d));
    }
  }

  /** Counted with multiplicity, the three groups hold the roster plus the
      students flagged both ways, who are in `devant` and in `derriere`. */
  lemma GroupsMultiset(eleves: seq<Eleve>)
    ensures multiset(Devant(eleves)) + multiset(Autres(eleves)) + multiset(Derriere(eleves))
            == multiset(eleves) + multiset(BothFlags(eleves))
  {
    var groups := multiset(Devant(eleves)) + multiset(Autres(eleves)) + multiset(Derriere(eleves));
    var doubled := multiset(eleves) + multiset(BothFlags(eleves));
    forall x
      ensures groups[x] == doubled[x]
    {
      GroupsCount(eleves, x);
    }
    assert groups == doubled;
  }

  /** `GroupsMultiset` for one value. */
  lemma GroupsCount(eleves: seq<Eleve>, x: Eleve)
    ensures multiset(Devant(eleves))[x] + multiset(Autres(eleves))[x] + multiset(Derriere(eleves))[x]
            == multiset(eleves)[x] + multiset(BothFlags(eleves))[x]
  {
    var n := multiset(eleves)[x];
    assert multiset(Devant(eleves))[x] == if IsDevant(x) then n else 0;
    assert multiset(Derriere(eleves))[x] == if IsDerriere(x) then n else 0;
    assert multiset(Autres(eleves))[x] == if IsAutre(x) then n else 0;
    assert multiset(BothFlags(eleves))[x] == if HasBothFlags(x) then n else 0;
  }

  /** With no student flagged both ways, the both-ways group is empty. */
  lemma NoBothFlags(eleves: seq<Eleve>)
    requires AllExclusive(eleves)
    ensures BothFlags(eleves) == []
  {
    var both := BothFlags(eleves);
    forall x
      ensures multiset(both)[x] == 0
    {
      if x in eleves {
        assert FlagsExclusive(x);
      }
    }
    assert multiset(both) == multiset{};
    assert |both| == |multiset(both)| == 0;
  }

  /** A student with both flags is in `devant` and in `derriere`, so
      `liste_triee` holds the roster plus a second copy of each such student;
      when no student has both flags it is a permutation of the roster. */
  lemma ListeTrieeMultiset(eleves: seq<Eleve>, dd: seq<nat>, da: seq<nat>, db: seq<nat>)
    ensures multiset(ListeTriee(eleves, dd, da, db)) == multiset(eleves) + multiset(BothFlags(eleves))
    ensures AllExclusive(eleves) ==> multiset(ListeTriee(eleves, dd, da, db)) == multiset(eleves)
  {
    var sd, sa, sb := Shuffle(Devant(eleves), dd), Shuffle(Autres(eleves), da), Shuffle(Derriere(eleves), db);
    assert multiset(ListeTriee(eleves, dd, da, db)) == multiset(sd) + multiset(sa) + multiset(sb);
    GroupsMultiset(eleves);
    if AllExclusive(eleves) {
      NoBothFlags(eleves);
    }
  }

  /** A student who has both flags is listed twice as often as on the roster. */
  lemma BothFlagsListedTwice(eleves: seq<Eleve>, dd: seq<nat>, da: seq<nat>, db: seq<nat>, e: Eleve)
    requires e in eleves && IsDevant(e) && IsDerriere(e)
    ensures multiset(ListeTriee(eleves, dd, da, db))[e] == 2 * multiset(eleves)[e]
  {
    ListeTrieeMultiset(eleves, dd, da, db);
  }

  /** When no student has both flags, `liste_triee` runs from the front group
      through the unflagged students to the back group without going back. */
  lemma ListeTrieeByPriority(eleves: seq<Eleve>, dd: seq<nat>, da: seq<nat>, db: seq<nat>)
    requires AllExclusive(eleves)
    ensures var l := ListeTriee(eleves, dd, da, db);
      forall i, j :: 0 <= i <= j < |l| ==> Rank(l[i]) <= Rank(l[j])
  {
    var l := ListeTriee(eleves, dd, da, db);
    ListeTrieeSegments(eleves, dd, da, db);
    ListeTrieeMultiset(eleves, dd, da, db);
    var nd, na := |Devant(eleves)|, |Autres(eleves)|;
    forall i | 0 <= i < |l|
      ensures Rank(l[i]) == if i < nd then 0 else if i < nd + na then 1 else 2
    {
      assert l[i] in multiset(l);
      assert FlagsExclusive(l[i]);
    }
  }

  // ---------------------------------------------------------------- the grid

  /** Read in fill order, the grid holds `Slot(liste, k)` at position `k`. */
  lemma {:induction false} FlattenPoured<T>(plan: seq<seq<Option<T>>>, liste: seq<T>, tables: nat, places: nat)
    requires Poured(plan, liste, tables, places)
    ensures |Flatten(plan)| == tables * places
    ensures forall k :: 0 <= k < tables * places ==> Flatten(plan)[k] == Slot(liste, k)
  {
    if tables > 0 {
      var front, last := plan[..tables - 1], plan[tables - 1];
      assert Poured(front, liste, tables - 1, places) by {
        assert forall t :: 0 <= t < tables - 1 ==> front[t] == plan[t];
      }
      FlattenPoured(front, liste, tables - 1, places);
      var b := (tables - 1) * places;
      assert tables * places == b + places;
      assert Flatten(plan) == Flatten(front) + last;
      forall k | 0 <= k < tables * places
        ensures Flatten(plan)[k] == Slot(liste, k)
      {
        if k >= b {
          assert Flatten(plan)[k] == last[k - b];
          assert last[k - b] == Slot(liste, (tables - 1) * places + (k - b));
        }
      }
    }
  }

  /** The occupants of seats filled from `liste` are a prefix of `liste`. */
  lemma {:induction false} SeatedOfSlots<T>(slots: seq<Option<T>>, liste: seq<T>)
    requires forall k :: 0 <= k < |slots| ==> slots[k] == Slot(liste, k)
    ensures Seated(slots) == liste[..Min(|slots|, |liste|)]
  {
    if slots != [] {
      var n := |slots|;
      SeatedOfSlots(slots[..n - 1], liste);
      if n - 1 < |liste| {
        assert liste[..n] == liste[..n - 1] + [liste[n - 1]];
      }
    }
  }

  /** The occupied seats are the first ones in fill order, with no empty seat
      before an occupied one, and they hold the head of `liste`: as many
      students as fit, `min(len(liste), tables * places)`. */
  lemma PlanFillsPrefix<T>(plan: seq<seq<Option<T>>>, liste: seq<T>, tables: nat, places: nat)
    requires Poured(plan, liste, tables, places)
    ensures var seats := Flatten(plan);
      && |seats| == tables * places
      && (forall i, j :: 0 <= i <= j < |seats| && seats[j].Some? ==> seats[i].Some?)
      && Seated(seats) == liste[..Min(|liste|, tables * places)]
  {
    FlattenPoured(plan, liste, tables, places);
    SeatedOfSlots(Flatten(plan), liste);
  }

  /** The head of a reordering of `roster`, cut at `cap`. */
  lemma HeadOfPermutation<T(!new)>(seated: seq<T>, l: seq<T>, roster: seq<T>, cap: nat)
    requires multiset(l) == multiset(roster) && seated == l[..Min(|l|, cap)]
    ensures |seated| == Min(|roster|, cap)
    ensures multiset(seated) <= multiset(roster)
    ensures |roster| <= cap ==> multiset(seated) == multiset(roster)
    ensures NoDuplicates(roster) ==> NoDuplicates(seated)
  {
    assert |l| == |roster| by {
      assert |multiset(l)| == |multiset(roster)|;
    }
    PrefixSubMultiset(l, Min(|l|, cap));
    if |roster| <= cap {
      assert seated == l;
    }
  }

  /** Without a student flagged both ways, a plan seats
      `min(len(eleves), capacity)` students, each at most once, all from the
      roster, and the whole roster when it fits. */
  lemma PlanSeatsEachOnce(eleves: seq<Eleve>, dd: seq<nat>, da: seq<nat>, db: seq<nat>,
                          plan: seq<seq<Option<Eleve>>>, tables: nat, places: nat)
    requires Poured(plan, ListeTriee(eleves, dd, da, db), tables, places)
    requires AllExclusive(eleves)
    ensures var seated := Seated(Flatten(plan));
      && |seated| == Min(|eleves|, tables * places)
      && multiset(seated) <= multiset(eleves)
      && (|eleves| <= tables * places ==> multiset(seated) == multiset(eleves))
      && (NoDuplicates(eleves) ==> NoDuplicates(seated))
  {
    var l := ListeTriee(eleves, dd, da, db);
    PlanFillsPrefix(plan, l, tables, places);
    ListeTrieeMultiset(eleves, dd, da, db);
    HeadOfPermutation(Seated(Flatten(plan)), l, eleves, tables * places);
  }

  /** Without a student flagged both ways, in fill order every student flagged
      for the front is seated before every unflagged student, who is seated
      before every student flagged for the back. */
  lemma PlanSeatsByPriority(eleves: seq<Eleve>, dd: seq<nat>, da: seq<nat>, db: seq<nat>,
                            plan: seq<seq<Option<Eleve>>>, tables: nat, places: nat)
    requires Poured(plan, ListeTriee(eleves, dd, da, db), tables, places)
    requires AllExclusive(eleves)
    ensures var seated := Seated(Flatten(plan));
      forall i, j :: 0 <= i <= j < |seated| ==> Rank(seated[i]) <= Rank(seated[j])
  {
    ListeTrieeByPriority(eleves, dd, da, db);
    PouredByRank(plan, ListeTriee(eleves, dd, da, db), tables, places);
  }

  /** Pouring a list sorted by `Rank` seats its students in `Rank` order. */
  lemma PouredByRank(plan: seq<seq<Option<Eleve>>>, l: seq<Eleve>, tables: nat, places: nat)
    requires Poured(plan, l, tables, places)
    requires forall i, j :: 0 <= i <= j < |l| ==> Rank(l[i]) <= Rank(l[j])
    ensures var seated := Seated(Flatten(plan));
      forall i, j :: 0 <= i <= j < |seated| ==> Rank(seated[i]) <= Rank(seated[j])
  {
    PlanFillsPrefix(plan, l, tables, places);
    var seated := Seated(Flatten(plan));
    forall i, j | 0 <= i <= j < |seated|
      ensures Rank(seated[i]) <= Rank(seated[j])
    {
      assert seated[i] == l[i] && seated[j] == l[j];
    }
  }

  /** `PlanFillsPrefix` shows that students who do not fit are dropped
      silently from the tail of `liste_triee`. When no more are dropped than
      there are students flagged for the back, every dropped student is
      flagged for the back. */
  lemma OverflowDropsBackGroupFirst(eleves: seq<Eleve>, dd: seq<nat>, da: seq<nat>, db: seq<nat>, capacity: nat)
    ensures var l := ListeTriee(eleves, dd, da, db);
      |l| - capacity <= |Derriere(eleves)| ==> forall i :: capacity <= i < |l| ==> IsDerriere(l[i])
  {
    ListeTrieeSegments(eleves, dd, da, db);
  }

  /** Filtering a two-element list. */
  lemma FilterPair<T(!new)>(a: T, b: T, keep: T -> bool)
    ensures Filter([a, b], keep) == (if keep(a) then [a] else []) + (if keep(b) then [b] else [])
  {
    assert [a, b][1..] == [b] && [b][1..] == [];
    assert Filter([b], keep) == (if keep(b) then [b] else []) + Filter([], keep);
  }

  /** Two unflagged students, in roster order, are the whole of `liste_triee`
      when no draws are given. */
  lemma PairListe(a: Eleve, b: Eleve)
    requires IsAutre(a) && IsAutre(b)
    ensures ListeTriee([a, b], [], [], []) == [a, b]
  {
    FilterPair(a, b, IsDevant);
    FilterPair(a, b, IsDerriere);
    FilterPair(a, b, IsAutre);
    ShuffleWithoutDraws([a, b]);
  }

  /** A list of two poured into one table of two seats fills that table. */
  lemma PouredPair<T>(plan: seq<seq<Option<T>>>, liste: seq<T>)
    requires |liste| == 2 && Poured(plan, liste, 1, 2)
    ensures plan[0] == [Some(liste[0]), Some(liste[1])]
  {
    assert plan[0][0] == Slot(liste, 0) && plan[0][1] == Slot(liste, 1);
  }

  /** The generator never reads the exclusion table: in a store where the
      user asked to keep students 1 and 2 of class 1 apart, and those two are
      the whole class, a plan of one table of two seats puts them together. */
  lemma ExcludedPairMayShareTable(db: DatabaseManager, plan: seq<seq<Option<Eleve>>>)
    requires Exclusion(1, 1, 1, 2) in db.exclusions
    requires db.GetEleves(1) == [Eleve(1, 1, "A", "", "M", 0, 0), Eleve(2, 1, "B", "", "M", 0, 0)]
    requires Poured(plan, ListeTriee(db.GetEleves(1), [], [], []), 1, 2)
    ensures 2 in db.GetExclusionsIds(1) && 1 in db.GetExclusionsIds(2)
    ensures plan[0] == [Some(Eleve(1, 1, "A", "", "M", 0, 0)), Some(Eleve(2, 1, "B", "", "M", 0, 0))]
  {
    var k :| 0 <= k < |db.exclusions| && db.exclusions[k] == Exclusion(1, 1, 1, 2);
    assert Links(db.exclusions[k], 1, 2) && Links(db.exclusions[k], 2, 1);
    PairListe(Eleve(1, 1, "A", "", "M", 0, 0), Eleve(2, 1, "B", "", "M", 0, 0));
    PouredPair(plan, db.GetEleves(1));
  }
}

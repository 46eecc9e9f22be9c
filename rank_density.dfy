/**
 * Density of the ranking: the ranked records hold the ranks 1..N, each
 * exactly once. Proofs that a delete keeps it, and that an edit keeps it,
 * given that the rank bound `nextRank` is N + 1, except an edit that moves
 * a hero already ranked to rank nextRank itself, which leaves rank N free.
 */
module RankDensity {
  import opened Optional
  import opened HeroData
  import opened HeroStore

  /** Some ranked record holds rank `r`. */
  ghost predicate HeldRank(s: Store, r: int) {
    exists k :: k in s && IsRanked(s[k]) && s[k].rank == r
  }

  /**
   * The ranked records hold exactly the ranks 1..n other than `gap`, each
   * of them once (a gap of 0 leaves no rank out).
   */
  ghost predicate RanksExactly(s: Store, n: int, gap: int) {
    && 0 <= n
    && (forall k :: k in s && IsRanked(s[k]) ==> 1 <= s[k].rank <= n && s[k].rank != gap)
    && UniqueRanks(s)
    && (forall r :: 1 <= r <= n && r != gap ==> HeldRank(s, r))
  }

  /** The ranked records hold the ranks 1..n, each exactly once. */
  ghost predicate Dense(s: Store, n: int) {
    RanksExactly(s, n, 0)
  }

  /** The ranked records hold 1..n except one free place `gap`. */
  ghost predicate Gapped(s: Store, n: int, gap: int) {
    1 <= gap <= n < UNRANKED && RanksExactly(s, n, gap)
  }

  /** How many records are ranked after an edit moves one from `oldRank` to `newRank`. */
  function RankedAfterEdit(n: int, oldRank: int, newRank: int): int {
    if oldRank == newRank then n
    else if oldRank == UNRANKED then (if n + 1 < UNRANKED then n + 1 else n)
    else if newRank == UNRANKED then n - 1
    else n
  }

  /**
   * Since a record ranked 1000 counts as unranked, a dense ranking holds
   * at most 999 ranks.
   */
  lemma DenseBelowSentinel(s: Store, n: int)
    requires Dense(s, n)
    ensures n < UNRANKED
  {
    assert !HeldRank(s, UNRANKED);
  }

  /** Taking a ranked record out of a dense index leaves a gap at its rank. */
  lemma RemoveRanked(s: Store, n: int, ref: string)
    requires Dense(s, n) && ref in s && IsRanked(s[ref])
    ensures Gapped(s - {ref}, n, s[ref].rank)
  {
    DenseBelowSentinel(s, n);
    var t := s - {ref};
    forall r | 1 <= r <= n && r != s[ref].rank
      ensures HeldRank(t, r)
    {
      assert HeldRank(s, r);
      var k :| k in s && IsRanked(s[k]) && s[k].rank == r;
      assert k in t;
    }
  }

  /** Taking out a record that is not ranked keeps the ranking dense. */
  lemma RemoveUnranked(s: Store, n: int, ref: string)
    requires Dense(s, n) && (ref in s ==> !IsRanked(s[ref]))
    ensures Dense(s - {ref}, n)
  {
    var t := s - {ref};
    forall r | 1 <= r <= n
      ensures HeldRank(t, r)
    {
      assert HeldRank(s, r);
      var k :| k in s && IsRanked(s[k]) && s[k].rank == r;
      assert k in t;
    }
  }

  /** A downward shift at the gap closes it. */
  lemma CloseGap(t: Store, n: int, gap: int)
    requires Gapped(t, n, gap)
    ensures Dense(Shifted(t, gap, "down"), n - 1)
  {
    var u := Shifted(t, gap, "down");
    forall k | k in t
      ensures IsRanked(u[k]) == IsRanked(t[k])
      ensures IsRanked(t[k]) ==> u[k].rank == (if t[k].rank > gap then t[k].rank - 1 else t[k].rank)
    {
    }
    forall r | 1 <= r <= n - 1
      ensures HeldRank(u, r)
    {
      var q := if r < gap then r else r + 1;
      assert HeldRank(t, q);
      var k :| k in t && IsRanked(t[k]) && t[k].rank == q;
      assert u[k].rank == r;
    }
  }

  /** Taking a ranked record out and closing its place leaves a dense ranking one shorter. */
  lemma CloseRanked(s: Store, n: int, ref: string, rank: int)
    requires Dense(s, n) && ref in s && IsRanked(s[ref]) && s[ref].rank == rank
    ensures 1 <= rank <= n
    ensures Dense(Shifted(s - {ref}, rank, "down"), n - 1)
  {
    RemoveRanked(s, n, ref);
    CloseGap(s - {ref}, n, rank);
  }

  /** The largest number of ranks a dense ranking can hold, capped below the sentinel. */
  function Capped(n: int): int {
    if n < UNRANKED then n else UNRANKED - 1
  }

  /**
   * An upward shift at `gap` opens a free place there. When 999 records are
   * ranked, the one at 999 moves to 1000 and so drops out of the ranking.
   */
  lemma OpenGap(t: Store, n: int, gap: int)
    requires Dense(t, n)
    requires 1 <= gap <= n + 1 && gap != UNRANKED
    ensures Gapped(Shifted(t, gap, "up"), Capped(n + 1), gap)
  {
    DenseBelowSentinel(t, n);
    var u := Shifted(t, gap, "up");
    var m := Capped(n + 1);
    forall k | k in t
      ensures !IsRanked(t[k]) ==> u[k] == t[k]
      ensures IsRanked(t[k]) ==> u[k].rank == (if t[k].rank >= gap then t[k].rank + 1 else t[k].rank)
    {
    }
    forall r | 1 <= r <= m && r != gap
      ensures HeldRank(u, r)
    {
      var q := if r < gap then r else r - 1;
      assert HeldRank(t, q);
      var k :| k in t && IsRanked(t[k]) && t[k].rank == q;
      assert u[k].rank == r;
    }
  }

  /** Storing a record at the free place makes a gapped ranking dense. */
  lemma Fill(t: Store, n: int, gap: int, ref: string, f: HeroFile)
    requires Gapped(t, n, gap) && ref !in t && f.rank == gap
    ensures Dense(t[ref := f], n)
  {
    var u := t[ref := f];
    forall r | 1 <= r <= n
      ensures HeldRank(u, r)
    {
      if r == gap {
        assert u[ref] == f;
      } else {
        assert HeldRank(t, r);
        var k :| k in t && IsRanked(t[k]) && t[k].rank == r;
        assert u[k] == t[k];
      }
    }
  }

  /** Storing an unranked record keeps a dense ranking dense. */
  lemma AddUnranked(t: Store, n: int, ref: string, f: HeroFile)
    requires Dense(t, n) && ref !in t && !IsRanked(f)
    ensures Dense(t[ref := f], n)
  {
    var u := t[ref := f];
    forall r | 1 <= r <= n
      ensures HeldRank(u, r)
    {
      assert HeldRank(t, r);
      var k :| k in t && IsRanked(t[k]) && t[k].rank == r;
      assert u[k] == t[k];
    }
  }

  /** The shifts of an edit act on each record alone, so one record can be set aside. */
  lemma EditShiftWithout(s: Store, ref: string, oldRank: int, newRank: int)
    ensures EditShift(s - {ref}, oldRank, newRank) == EditShift(s, oldRank, newRank) - {ref}
  {
    var a := EditShift(s - {ref}, oldRank, newRank);
    var b := EditShift(s, oldRank, newRank) - {ref};
    assert a.Keys == b.Keys;
    forall k | k in a
      ensures a[k] == b[k]
    {
      if oldRank != newRank && oldRank != UNRANKED && newRank != UNRANKED {
        assert Shifted(s - {ref}, oldRank, "down")[k] == Shifted(s, oldRank, "down")[k];
      }
    }
  }

  /**
   * The transition policy of an edit followed by the write of the new
   * record keeps the ranking dense, whenever the new rank is unchanged,
   * the sentinel, or a place the ranking can take: up to n + 1 for a hero
   * entering the ranking, up to n for one already in it.
   */
  lemma CommitKeepsDense(s: Store, n: int, oldFile: HeroFile, f: HeroFile)
    requires Dense(s, n)
    requires oldFile.reference in s && s[oldFile.reference] == oldFile
    requires f.reference == oldFile.reference
    requires f.rank == oldFile.rank || f.rank == UNRANKED ||
             1 <= f.rank <= (if IsRanked(oldFile) then n else n + 1)
    ensures Dense(EditShift(s, oldFile.rank, f.rank)[f.reference := f], RankedAfterEdit(n, oldFile.rank, f.rank))
  {
    DenseBelowSentinel(s, n);
    var ref := f.reference;
    var t := s - {ref};
    EditShiftWithout(s, ref, oldFile.rank, f.rank);
    assert EditShift(s, oldFile.rank, f.rank)[ref := f] == EditShift(t, oldFile.rank, f.rank)[ref := f];
    if oldFile.rank == f.rank {
      if IsRanked(oldFile) {
        RemoveRanked(s, n, ref);
        Fill(t, n, f.rank, ref, f);
      } else {
        RemoveUnranked(s, n, ref);
        AddUnranked(t, n, ref, f);
      }
    } else if !IsRanked(oldFile) {
      RemoveUnranked(s, n, ref);
      OpenGap(t, n, f.rank);
      Fill(Shifted(t, f.rank, "up"), Capped(n + 1), f.rank, ref, f);
    } else if !IsRanked(f) {
      RemoveRanked(s, n, ref);
      CloseGap(t, n, oldFile.rank);
      AddUnranked(Shifted(t, oldFile.rank, "down"), n - 1, ref, f);
    } else {
      RemoveRanked(s, n, ref);
      CloseGap(t, n, oldFile.rank);
      var u := Shifted(t, oldFile.rank, "down");
      OpenGap(u, n - 1, f.rank);
      Fill(Shifted(u, f.rank, "up"), n, f.rank, ref, f);
    }
  }

  /**
   * An edit as written keeps a dense ranking of n records dense when
   * nextRank is n + 1, except when it moves a hero that is already ranked
   * to rank nextRank itself (see MoveToNextRankLeavesGap).
   */
  lemma EditKeepsDense(s: Store, n: int, oldFile: HeroFile, newName: Option<string>, newAlias: Option<string>,
                       newQuirk: Option<string>, newRank: Option<int>)
    requires Dense(s, n)
    requires oldFile.reference in s && s[oldFile.reference] == oldFile
    requires !(IsRanked(oldFile) && newRank == Some(n + 1) && n + 1 != UNRANKED)
    ensures Dense(Edited(s, oldFile, newName, newAlias, newQuirk, newRank, n + 1),
                  RankedAfterEdit(n, oldFile.rank, ResolveRank(oldFile.rank, newRank, n + 1)))
  {
    var f := NewFile(oldFile, newName, newAlias, newQuirk, ResolveRank(oldFile.rank, newRank, n + 1));
    CommitKeepsDense(s, n, oldFile, f);
  }

  /** With the corrected rank bound, every edit keeps a dense ranking dense. */
  lemma EditFixedKeepsDense(s: Store, n: int, oldFile: HeroFile, newName: Option<string>, newAlias: Option<string>,
                            newQuirk: Option<string>, newRank: Option<int>)
    requires Dense(s, n)
    requires oldFile.reference in s && s[oldFile.reference] == oldFile
    ensures Dense(EditedFixed(s, oldFile, newName, newAlias, newQuirk, newRank, n + 1),
                  RankedAfterEdit(n, oldFile.rank, ResolveRankFixed(oldFile.rank, newRank, n + 1)))
  {
    var f := NewFile(oldFile, newName, newAlias, newQuirk, ResolveRankFixed(oldFile.rank, newRank, n + 1));
    CommitKeepsDense(s, n, oldFile, f);
  }

  /**
   * A delete of a stored record keeps the ranking dense: one rank fewer
   * when the record was ranked, the same ranking otherwise.
   */
  lemma DeleteKeepsDense(s: Store, n: int, file: HeroFile)
    requires Dense(s, n)
    requires file.reference in s && s[file.reference] == file
    ensures Dense(Deleted(s, file), if IsRanked(file) then n - 1 else n)
  {
    if IsRanked(file) {
      RemoveRanked(s, n, file.reference);
      CloseGap(s - {file.reference}, n, file.rank);
    } else {
      RemoveUnranked(s, n, file.reference);
    }
  }

  /**
   * A move from rank r1 to rank r2 shifts each record ranked in (r1, r2],
   * or in [r2, r1), one place towards r1; records ranked beyond both keep
   * their rank.
   */
  lemma RankedMoveShiftsBetween(s: Store, n: int, r1: int, r2: int, k: string)
    requires Dense(s, n)
    requires 1 <= r1 <= n && 1 <= r2 <= n && r1 != r2
    requires k in s && IsRanked(s[k]) && s[k].rank != r1
    ensures r1 < s[k].rank <= r2 ==> EditShift(s, r1, r2)[k].rank == s[k].rank - 1
    ensures r2 <= s[k].rank < r1 ==> EditShift(s, r1, r2)[k].rank == s[k].rank + 1
    ensures (s[k].rank < r1 && s[k].rank < r2) || (s[k].rank > r1 && s[k].rank > r2) ==>
      EditShift(s, r1, r2)[k].rank == s[k].rank
  {
    DenseBelowSentinel(s, n);
    var d := Shifted(s, r1, "down");
    assert s[k].rank > r1 ==> d[k].rank == s[k].rank - 1 && IsRanked(d[k]);
    assert s[k].rank < r1 ==> d[k] == s[k];
  }

  /** An upward shift above every held rank moves no record. */
  lemma ShiftAboveRanking(u: Store, c: int, g: int)
    requires Dense(u, c) && c < g
    ensures Shifted(u, g, "up") == u
  {
    var w := Shifted(u, g, "up");
    forall k | k in u
      ensures w[k] == u[k]
    {
    }
  }

  /** A record stored at rank c + 2 above a dense ranking 1..c leaves c + 1 free. */
  lemma StoreAboveLeavesHole(r: Store, u: Store, c: int, ref: string, f: HeroFile)
    requires Dense(u, c) && ref !in u && f.rank == c + 2
    requires r == u[ref := f]
    ensures !HeldRank(r, c + 1)
  {
    forall k | k in r && IsRanked(r[k])
      ensures r[k].rank != c + 1
    {
      if k != ref {
        assert r[k] == u[k];
      }
    }
  }

  /** A ranking with a record at n + 1 and nobody at n >= 1 is dense for no count. */
  lemma HoleNotDense(r: Store, n: int, ref: string, m: int)
    requires n >= 1 && ref in r && IsRanked(r[ref]) && r[ref].rank == n + 1 && !HeldRank(r, n)
    ensures !Dense(r, m)
  {
    if m <= n {
      assert r[ref].rank > m;
    }
  }

  /** An edit is the shift of the other records, then the write of the new one. */
  lemma EditedWithout(s: Store, oldFile: HeroFile, newName: Option<string>, newAlias: Option<string>,
                      newQuirk: Option<string>, newRank: Option<int>, nextRank: int)
    ensures var rank := ResolveRank(oldFile.rank, newRank, nextRank);
      Edited(s, oldFile, newName, newAlias, newQuirk, newRank, nextRank) ==
      EditShift(s - {oldFile.reference}, oldFile.rank, rank)[oldFile.reference :=
        NewFile(oldFile, newName, newAlias, newQuirk, rank)]
  {
    var rank := ResolveRank(oldFile.rank, newRank, nextRank);
    var f := NewFile(oldFile, newName, newAlias, newQuirk, rank);
    EditShiftWithout(s, oldFile.reference, oldFile.rank, rank);
    var a := EditShift(s, oldFile.rank, rank);
    assert a[f.reference := f] == (a - {f.reference})[f.reference := f];
  }

  /**
   * An edit that moves a ranked hero to g = c + 2, where closing its old
   * place leaves the others dense in 1..c, stores it at g and leaves c + 1
   * free.
   */
  lemma EditAboveRanking(s: Store, c: int, oldFile: HeroFile, newName: Option<string>,
                         newAlias: Option<string>, newQuirk: Option<string>, g: int)
    requires IsRanked(oldFile) && oldFile.rank < g && 0 < g && g != UNRANKED && g == c + 2
    requires Dense(Shifted(s - {oldFile.reference}, oldFile.rank, "down"), c)
    ensures var r := Edited(s, oldFile, newName, newAlias, newQuirk, Some(g), g);
      r[oldFile.reference].rank == g && !HeldRank(r, c + 1)
  {
    var t := s - {oldFile.reference};
    var u := Shifted(t, oldFile.rank, "down");
    var f := NewFile(oldFile, newName, newAlias, newQuirk, g);
    assert ResolveRank(oldFile.rank, Some(g), g) == g;
    EditedWithout(s, oldFile, newName, newAlias, newQuirk, Some(g), g);
    assert EditShift(t, oldFile.rank, g) == Shifted(u, g, "up");
    ShiftAboveRanking(u, c, g);
    StoreAboveLeavesHole(Edited(s, oldFile, newName, newAlias, newQuirk, Some(g), g), u, c, oldFile.reference, f);
  }

  /**
   * The edit as written, for any dense ranking of n records with nextRank
   * n + 1: moving a hero that is already ranked to rank n + 1 closes its
   * old place, then stores it at n + 1, so rank n is held by no one.
   */
  lemma MoveToNextRankLeavesHole(s: Store, n: int, oldFile: HeroFile, newName: Option<string>,
                                 newAlias: Option<string>, newQuirk: Option<string>)
    requires Dense(s, n)
    requires oldFile.reference in s && s[oldFile.reference] == oldFile && IsRanked(oldFile)
    requires n + 1 != UNRANKED
    ensures var r := Edited(s, oldFile, newName, newAlias, newQuirk, Some(n + 1), n + 1);
      n >= 1 && r[oldFile.reference].rank == n + 1 && !HeldRank(r, n)
  {
    CloseRanked(s, n, oldFile.reference, oldFile.rank);
    EditAboveRanking(s, n - 1, oldFile, newName, newAlias, newQuirk, n + 1);
  }

  /** Hence such an edit leaves no dense ranking, whatever the count. */
  lemma MoveToNextRankBreaksDensity(s: Store, n: int, oldFile: HeroFile, newName: Option<string>,
                                    newAlias: Option<string>, newQuirk: Option<string>, m: int)
    requires Dense(s, n)
    requires oldFile.reference in s && s[oldFile.reference] == oldFile && IsRanked(oldFile)
    requires n + 1 != UNRANKED
    ensures !Dense(Edited(s, oldFile, newName, newAlias, newQuirk, Some(n + 1), n + 1), m)
  {
    MoveToNextRankLeavesHole(s, n, oldFile, newName, newAlias, newQuirk);
    HoleNotDense(Edited(s, oldFile, newName, newAlias, newQuirk, Some(n + 1), n + 1), n, oldFile.reference, m);
  }

  /** Four ranked heroes; the one at rank 2 moves to rank 4. */
  function FourRanked(): Store {
    map["a" := HeroFile("a", 1, UNKNOWN, "A", UNKNOWN, 1),
        "b" := HeroFile("b", 2, UNKNOWN, "B", UNKNOWN, 2),
        "c" := HeroFile("c", 3, UNKNOWN, "C", UNKNOWN, 3),
        "d" := HeroFile("d", 4, UNKNOWN, "D", UNKNOWN, 4)]
  }

  /** Moving rank 2 to rank 4 of four: 1 stays, 2 becomes 4, 3 and 4 move up one place. */
  lemma MoveTwoToFour()
    ensures var r := Edited(FourRanked(), FourRanked()["b"], None, None, None, Some(4), 5);
      r.Keys == {"a", "b", "c", "d"} &&
      r["a"].rank == 1 && r["b"].rank == 4 && r["c"].rank == 2 && r["d"].rank == 3
  {
    var s := FourRanked();
    assert ResolveRank(2, Some(4), 5) == 4;
    var d := Shifted(s, 2, "down");
    assert d["a"] == s["a"] && d["c"].rank == 2 && d["d"].rank == 3;
    var u := Shifted(d, 4, "up");
    assert u["a"] == d["a"] && u["c"] == d["c"] && u["d"] == d["d"];
  }

  /** Deleting rank 2 of three: 1 stays, 3 moves to 2. */
  lemma RemoveRankTwo()
    ensures var s := FourRanked() - {"d"};
      var r := Deleted(s, s["b"]);
      r.Keys == {"a", "c"} && r["a"].rank == 1 && r["c"].rank == 2
  {
  }

  /** Three records ranked 1, 2 and 3 form a dense ranking. */
  lemma ThreeRankedDense()
    ensures Dense(FourRanked() - {"d"}, 3)
  {
    var s := FourRanked() - {"d"};
    assert HeldRank(s, 1) by { assert s["a"].rank == 1; }
    assert HeldRank(s, 2) by { assert s["b"].rank == 2; }
    assert HeldRank(s, 3) by { assert s["c"].rank == 3; }
  }

  /**
   * The edit as written, moving an already ranked hero to rank nextRank =
   * N + 1: the hero at rank 2 of three moves to 4, the hero at 3 moves to
   * 2, and no hero holds rank 3 any more, so no dense ranking results.
   */
  lemma MoveToNextRankLeavesGap(m: int)
    ensures var s := FourRanked() - {"d"};
      Dense(s, 3) &&
      !Dense(Edited(s, s["b"], None, None, None, Some(4), 4), m)
  {
    ThreeRankedDense();
    var s := FourRanked() - {"d"};
    MoveToNextRankBreaksDensity(s, 3, s["b"], None, None, None, m);
  }

  /**
   * With 999 heroes ranked, ranking one more pushes the hero at rank 999
   * to 1000, the sentinel: that hero silently leaves the ranking.
   */
  lemma RankingAtCapacityEvicts(s: Store, oldFile: HeroFile, g: int, k: string)
    requires Dense(s, UNRANKED - 1)
    requires oldFile.reference in s && s[oldFile.reference] == oldFile && !IsRanked(oldFile)
    requires 1 <= g < UNRANKED
    requires k in s && s[k].rank == UNRANKED - 1
    ensures !IsRanked(Edited(s, oldFile, None, None, None, Some(g), UNRANKED)[k])
  {
    assert k != oldFile.reference;
  }
}

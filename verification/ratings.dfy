/** POST /api/ratings and GET /api/ratings/my-rating/:bakeryId over the
    `ratings` table and the `rating` column of `bakeries`. */
module RatingRoutes {
  import opened Optional
  import opened Store
  import opened Http

  /** Does this row belong to the pair (u, b)? */
  predicate IsKey(row: RatingRow, u: UserId, b: BakeryId) {
    row.user == u && row.bakery == b
  }

  /** Some row belongs to (u, b). */
  predicate HasKey(rows: seq<RatingRow>, u: UserId, b: BakeryId) {
    exists i :: 0 <= i < |rows| && IsKey(rows[i], u, b)
  }

  /** The rows of (u, b), in table order: what a filter on both columns selects. */
  function RowsWithKey(rows: seq<RatingRow>, u: UserId, b: BakeryId): (r: seq<RatingRow>)
    ensures |r| <= |rows|
    ensures forall x :: x in r <==> x in rows && IsKey(x, u, b)
  {
    if |rows| == 0 then []
    else (if IsKey(rows[0], u, b) then [rows[0]] else []) + RowsWithKey(rows[1..], u, b)
  }

  /** The table read as the map (user, bakery) -> score. */
  function ScoreOf(rows: seq<RatingRow>, u: UserId, b: BakeryId): (r: Option<int>)
    ensures r.Some? <==> HasKey(rows, u, b)
    ensures r.Some? ==> RatingRow(u, b, r.value) in rows
  {
    if |rows| == 0 then None
    else if IsKey(rows[0], u, b) then Some(rows[0].score)
    else
      assert forall i :: 1 <= i < |rows| ==> rows[i] == rows[1..][i - 1];
      ScoreOf(rows[1..], u, b)
  }

  /** Every score given to bakery b, in table order. */
  function ScoresFor(rows: seq<RatingRow>, b: BakeryId): (scores: seq<int>)
    ensures |scores| <= |rows|
  {
    if |rows| == 0 then []
    else (if rows[0].bakery == b then [rows[0].score] else []) + ScoresFor(rows[1..], b)
  }

  /** The scores read for b are exactly the scores of b's rows. */
  lemma {:induction false} ScoresForMembers(rows: seq<RatingRow>, b: BakeryId)
    ensures forall x :: x in rows && x.bakery == b ==> x.score in ScoresFor(rows, b)
    ensures forall s :: s in ScoresFor(rows, b) ==> exists x :: x in rows && x.bakery == b && x.score == s
  {
    if |rows| > 0 {
      ScoresForMembers(rows[1..], b);
      assert forall x :: x in rows <==> x == rows[0] || x in rows[1..];
    }
  }

  /** The raters of bakery b, in table order: the user of each row whose
      score `ScoresFor` reads. */
  function Raters(rows: seq<RatingRow>, b: BakeryId): (us: seq<UserId>)
    ensures |us| == |ScoresFor(rows, b)|
  {
    if |rows| == 0 then []
    else (if rows[0].bakery == b then [rows[0].user] else []) + Raters(rows[1..], b)
  }

  predicate NoRepeats(us: seq<UserId>) {
    forall i, j :: 0 <= i < j < |us| ==> us[i] != us[j]
  }

  /** A row for (u, b) is either the first row or one of the rest. */
  lemma HasKeyCons(rows: seq<RatingRow>, u: UserId, b: BakeryId)
    requires |rows| > 0
    ensures HasKey(rows, u, b) <==> IsKey(rows[0], u, b) || HasKey(rows[1..], u, b)
  {
    assert forall k :: 0 <= k < |rows| - 1 ==> rows[1..][k] == rows[k + 1];
    if HasKey(rows, u, b) && !IsKey(rows[0], u, b) {
      var k :| 0 <= k < |rows| && IsKey(rows[k], u, b);
      assert IsKey(rows[1..][k - 1], u, b);
    }
  }

  /** Dropping the first row keeps the (user, bakery) constraint. */
  lemma UniqueTail(rows: seq<RatingRow>)
    requires |rows| > 0 && UniqueRatingKeys(rows)
    ensures UniqueRatingKeys(rows[1..])
  {
    forall i, j | 0 <= i < j < |rows| - 1
      ensures rows[1..][i].user != rows[1..][j].user || rows[1..][i].bakery != rows[1..][j].bakery
    {
      assert rows[1..][i] == rows[i + 1] && rows[1..][j] == rows[j + 1];
    }
  }

  /** The raters of b are exactly the users with a row for b. */
  lemma {:induction false} RatersMembers(rows: seq<RatingRow>, b: BakeryId)
    ensures forall u :: u in Raters(rows, b) <==> HasKey(rows, u, b)
  {
    if |rows| > 0 {
      RatersMembers(rows[1..], b);
      forall u ensures u in Raters(rows, b) <==> HasKey(rows, u, b) {
        HasKeyCons(rows, u, b);
      }
    }
  }

  /** Under the (user, bakery) constraint the first row's user rates b in
      no later row. */
  lemma FirstRaterOnce(rows: seq<RatingRow>, b: BakeryId)
    requires |rows| > 0 && rows[0].bakery == b && UniqueRatingKeys(rows)
    ensures rows[0].user !in Raters(rows[1..], b)
  {
    var tail := rows[1..];
    forall k | 0 <= k < |tail| ensures !IsKey(tail[k], rows[0].user, b) {
      assert tail[k] == rows[k + 1];
    }
    RatersMembers(tail, b);
  }

  /** Under the (user, bakery) constraint each rater of b appears once. */
  lemma {:induction false} RatersNoRepeats(rows: seq<RatingRow>, b: BakeryId)
    requires UniqueRatingKeys(rows)
    ensures NoRepeats(Raters(rows, b))
  {
    if |rows| > 0 {
      UniqueTail(rows);
      RatersNoRepeats(rows[1..], b);
      var rs, ts := Raters(rows, b), Raters(rows[1..], b);
      if rows[0].bakery == b {
        FirstRaterOnce(rows, b);
        assert rs == [rows[0].user] + ts;
        forall i, j | 0 <= i < j < |rs| ensures rs[i] != rs[j] {
          assert rs[j] == ts[j - 1];
          if i == 0 {
            assert ts[j - 1] in ts;
          } else {
            assert rs[i] == ts[i - 1];
          }
        }
      } else {
        assert rs == ts;
      }
    }
  }

  /** Under the (user, bakery) constraint the i-th score read for b is the
      i-th rater's score in the map reading of the table. */
  lemma {:induction false} RatersMatchScores(rows: seq<RatingRow>, b: BakeryId)
    requires UniqueRatingKeys(rows)
    ensures forall i :: 0 <= i < |Raters(rows, b)| ==> ScoreOf(rows, Raters(rows, b)[i], b) == Some(ScoresFor(rows, b)[i])
  {
    if |rows| > 0 {
      var x, tail := rows[0], rows[1..];
      UniqueTail(rows);
      RatersMatchScores(tail, b);
      var rs, ts := Raters(rows, b), Raters(tail, b);
      if x.bakery == b {
        assert rs == [x.user] + ts;
        assert ScoresFor(rows, b) == [x.score] + ScoresFor(tail, b);
        FirstRaterOnce(rows, b);
        forall i | 0 < i < |rs| ensures ScoreOf(rows, rs[i], b) == Some(ScoresFor(rows, b)[i]) {
          assert rs[i] == ts[i - 1] && rs[i] in ts;
        }
      } else {
        assert rs == ts;
        assert ScoresFor(rows, b) == ScoresFor(tail, b);
      }
    }
  }

  function Sum(xs: seq<int>): int {
    if |xs| == 0 then 0 else xs[0] + Sum(xs[1..])
  }

  /** The exact average; the handler's one-decimal formatting is not modelled. */
  function Mean(xs: seq<int>): (m: real)
    requires |xs| > 0
    ensures m * (|xs| as real) == Sum(xs) as real
  {
    Sum(xs) as real / |xs| as real
  }

  /** Every row of (u, b) gets score s; all other rows stay as they are. */
  function Overwrite(rows: seq<RatingRow>, u: UserId, b: BakeryId, s: int): (r: seq<RatingRow>)
    ensures |r| == |rows|
    ensures forall i :: 0 <= i < |rows| ==>
      r[i] == if IsKey(rows[i], u, b) then rows[i].(score := s) else rows[i]
  {
    if |rows| == 0 then []
    else [if IsKey(rows[0], u, b) then rows[0].(score := s) else rows[0]] + Overwrite(rows[1..], u, b, s)
  }

  /** The upsert with conflict target (user_id, bakery_id): overwrite the
      pair's row when there is one, append a new row otherwise. */
  function Upsert(rows: seq<RatingRow>, u: UserId, b: BakeryId, s: int): (r: seq<RatingRow>)
    ensures ScoreOf(r, u, b) == Some(s)
    ensures forall i :: 0 <= i < |r| && IsKey(r[i], u, b) ==> r[i].score == s
    ensures |r| == if HasKey(rows, u, b) then |rows| else |rows| + 1
    ensures UniqueRatingKeys(rows) ==> UniqueRatingKeys(r) && |RowsWithKey(r, u, b)| == 1
    ensures forall u', b' :: !(u' == u && b' == b) ==> RowsWithKey(r, u', b') == RowsWithKey(rows, u', b')
  {
    var r := if ScoreOf(rows, u, b).Some? then Overwrite(rows, u, b, s) else rows + [RatingRow(u, b, s)];
    UpsertFacts(rows, u, b, s, r);
    r
  }

  lemma UpsertFacts(rows: seq<RatingRow>, u: UserId, b: BakeryId, s: int, r: seq<RatingRow>)
    requires r == if ScoreOf(rows, u, b).Some? then Overwrite(rows, u, b, s) else rows + [RatingRow(u, b, s)]
    ensures ScoreOf(r, u, b) == Some(s)
    ensures forall i :: 0 <= i < |r| && IsKey(r[i], u, b) ==> r[i].score == s
    ensures |r| == if HasKey(rows, u, b) then |rows| else |rows| + 1
    ensures UniqueRatingKeys(rows) ==> UniqueRatingKeys(r) && |RowsWithKey(r, u, b)| == 1
    ensures forall u', b' :: !(u' == u && b' == b) ==> RowsWithKey(r, u', b') == RowsWithKey(rows, u', b')
  {
    if ScoreOf(rows, u, b).Some? {
      OverwriteFacts(rows, u, b, s);
    } else {
      AppendFacts(rows, u, b, s);
    }
  }

  lemma {:induction false} RowsWithKeyConcat(a: seq<RatingRow>, c: seq<RatingRow>, u: UserId, b: BakeryId)
    ensures RowsWithKey(a + c, u, b) == RowsWithKey(a, u, b) + RowsWithKey(c, u, b)
  {
    if |a| == 0 {
      assert a + c == c;
    } else {
      assert (a + c)[0] == a[0] && (a + c)[1..] == a[1..] + c;
      RowsWithKeyConcat(a[1..], c, u, b);
    }
  }

  lemma {:induction false} ScoresForConcat(a: seq<RatingRow>, c: seq<RatingRow>, b: BakeryId)
    ensures ScoresFor(a + c, b) == ScoresFor(a, b) + ScoresFor(c, b)
  {
    if |a| == 0 {
      assert a + c == c;
    } else {
      var head := if a[0].bakery == b then [a[0].score] else [];
      assert (a + c)[0] == a[0] && (a + c)[1..] == a[1..] + c;
      assert ScoresFor(a + c, b) == head + ScoresFor(a[1..] + c, b);
      ScoresForConcat(a[1..], c, b);
      assert ScoresFor(a, b) == head + ScoresFor(a[1..], b);
      assert head + (ScoresFor(a[1..], b) + ScoresFor(c, b)) == (head + ScoresFor(a[1..], b)) + ScoresFor(c, b);
    }
  }

  lemma {:induction false} SumConcat(xs: seq<int>, ys: seq<int>)
    ensures Sum(xs + ys) == Sum(xs) + Sum(ys)
  {
    if |xs| == 0 {
      assert xs + ys == ys;
    } else {
      assert (xs + ys)[0] == xs[0] && (xs + ys)[1..] == xs[1..] + ys;
      SumConcat(xs[1..], ys);
    }
  }

  function AppendedScore(rows: seq<RatingRow>, x: RatingRow, u: UserId, b: BakeryId): Option<int> {
    if HasKey(rows, u, b) then ScoreOf(rows, u, b)
    else if IsKey(x, u, b) then Some(x.score) else None
  }

  /** Appending a row leaves the score of every pair that already had one. */
  lemma {:induction false} ScoreOfAppend(rows: seq<RatingRow>, x: RatingRow)
    ensures forall u, b :: ScoreOf(rows + [x], u, b) == AppendedScore(rows, x, u, b)
  {
    if |rows| == 0 {
      assert rows + [x] == [x];
    } else {
      assert (rows + [x])[0] == rows[0] && (rows + [x])[1..] == rows[1..] + [x];
      ScoreOfAppend(rows[1..], x);
      forall u, b | !IsKey(rows[0], u, b)
        ensures HasKey(rows, u, b) <==> HasKey(rows[1..], u, b)
      {
        if HasKey(rows, u, b) {
          var i :| 0 <= i < |rows| && IsKey(rows[i], u, b);
          assert rows[1..][i - 1] == rows[i];
        }
      }
    }
  }

  /** Under the unique constraint a pair has at most one row. */
  lemma {:induction false} KeyRowCount(rows: seq<RatingRow>, u: UserId, b: BakeryId)
    ensures UniqueRatingKeys(rows) ==> |RowsWithKey(rows, u, b)| == if HasKey(rows, u, b) then 1 else 0
  {
    if |rows| > 0 && UniqueRatingKeys(rows) {
      var tail := rows[1..];
      assert UniqueRatingKeys(tail) by {
        forall i, j | 0 <= i < j < |tail| ensures tail[i].user != tail[j].user || tail[i].bakery != tail[j].bakery {
          assert tail[i] == rows[i + 1] && tail[j] == rows[j + 1];
        }
      }
      KeyRowCount(tail, u, b);
      if IsKey(rows[0], u, b) {
        assert !HasKey(tail, u, b) by {
          forall i | 0 <= i < |tail| ensures !IsKey(tail[i], u, b) {
            assert tail[i] == rows[i + 1];
          }
        }
      } else {
        if HasKey(rows, u, b) {
          var i :| 0 <= i < |rows| && IsKey(rows[i], u, b);
          assert tail[i - 1] == rows[i];
        }
      }
    }
  }

  /** Overwriting the pair (u, b) leaves the rows of every other pair. */
  lemma {:induction false} OverwriteOtherRows(rows: seq<RatingRow>, u: UserId, b: BakeryId, s: int, u': UserId, b': BakeryId)
    requires !(u' == u && b' == b)
    ensures RowsWithKey(Overwrite(rows, u, b, s), u', b') == RowsWithKey(rows, u', b')
  {
    if |rows| > 0 {
      var r := Overwrite(rows, u, b, s);
      assert r[1..] == Overwrite(rows[1..], u, b, s);
      OverwriteOtherRows(rows[1..], u, b, s, u', b');
    }
  }

  lemma AppendFacts(rows: seq<RatingRow>, u: UserId, b: BakeryId, s: int)
    requires !HasKey(rows, u, b)
    ensures ScoreOf(rows + [RatingRow(u, b, s)], u, b) == Some(s)
    ensures forall i :: 0 <= i < |rows| + 1 && IsKey((rows + [RatingRow(u, b, s)])[i], u, b) ==>
      (rows + [RatingRow(u, b, s)])[i].score == s
    ensures UniqueRatingKeys(rows) ==>
      UniqueRatingKeys(rows + [RatingRow(u, b, s)]) && |RowsWithKey(rows + [RatingRow(u, b, s)], u, b)| == 1
    ensures forall u', b' :: !(u' == u && b' == b) ==>
      RowsWithKey(rows + [RatingRow(u, b, s)], u', b') == RowsWithKey(rows, u', b')
  {
    var x := RatingRow(u, b, s);
    ScoreOfAppend(rows, x);
    assert AppendedScore(rows, x, u, b) == Some(s);
    forall u', b' | !(u' == u && b' == b)
      ensures RowsWithKey(rows + [x], u', b') == RowsWithKey(rows, u', b')
    {
      RowsWithKeyConcat(rows, [x], u', b');
      assert RowsWithKey([x], u', b') == [];
    }
    forall i | 0 <= i < |rows| ensures !IsKey((rows + [x])[i], u, b) {
      assert (rows + [x])[i] == rows[i];
    }
    assert HasKey(rows + [x], u, b) by {
      assert IsKey((rows + [x])[|rows|], u, b);
    }
    KeyRowCount(rows + [x], u, b);
  }

  lemma OverwriteScore(rows: seq<RatingRow>, u: UserId, b: BakeryId, s: int)
    requires HasKey(rows, u, b)
    ensures ScoreOf(Overwrite(rows, u, b, s), u, b) == Some(s)
  {
    var r := Overwrite(rows, u, b, s);
    var i :| 0 <= i < |rows| && IsKey(rows[i], u, b);
    assert r[i] == rows[i].(score := s);
    assert HasKey(r, u, b) by {
      assert IsKey(r[i], u, b);
    }
    var v := ScoreOf(r, u, b).value;
    assert RatingRow(u, b, v) in r;
    var j :| 0 <= j < |r| && r[j] == RatingRow(u, b, v);
    assert r[j].user == rows[j].user && r[j].bakery == rows[j].bakery;
    assert IsKey(rows[j], u, b);
    assert r[j] == rows[j].(score := s);
  }

  lemma OverwriteUnique(rows: seq<RatingRow>, u: UserId, b: BakeryId, s: int)
    requires UniqueRatingKeys(rows)
    ensures UniqueRatingKeys(Overwrite(rows, u, b, s))
  {
    var r := Overwrite(rows, u, b, s);
    forall i, j | 0 <= i < j < |r| ensures r[i].user != r[j].user || r[i].bakery != r[j].bakery {
      assert r[i].user == rows[i].user && r[i].bakery == rows[i].bakery;
      assert r[j].user == rows[j].user && r[j].bakery == rows[j].bakery;
    }
  }

  lemma OverwriteFacts(rows: seq<RatingRow>, u: UserId, b: BakeryId, s: int)
    requires HasKey(rows, u, b)
    ensures ScoreOf(Overwrite(rows, u, b, s), u, b) == Some(s)
    ensures forall i :: 0 <= i < |rows| && IsKey(Overwrite(rows, u, b, s)[i], u, b) ==>
      Overwrite(rows, u, b, s)[i].score == s
    ensures UniqueRatingKeys(rows) ==>
      UniqueRatingKeys(Overwrite(rows, u, b, s)) && |RowsWithKey(Overwrite(rows, u, b, s), u, b)| == 1
    ensures forall u', b' :: !(u' == u && b' == b) ==>
      RowsWithKey(Overwrite(rows, u, b, s), u', b') == RowsWithKey(rows, u', b')
  {
    var r := Overwrite(rows, u, b, s);
    OverwriteScore(rows, u, b, s);
    forall i | 0 <= i < |rows| && IsKey(r[i], u, b) ensures r[i].score == s {
      assert IsKey(rows[i], u, b);
    }
    if UniqueRatingKeys(rows) {
      OverwriteUnique(rows, u, b, s);
      KeyRowCount(r, u, b);
    }
    forall u', b' | !(u' == u && b' == b)
      ensures RowsWithKey(Overwrite(rows, u, b, s), u', b') == RowsWithKey(rows, u', b')
    {
      OverwriteOtherRows(rows, u, b, s, u', b');
    }
  }

  /** The score of a pair is the score of its first row. */
  lemma {:induction false} ScoreOfFirstRow(rows: seq<RatingRow>, u: UserId, b: BakeryId)
    ensures ScoreOf(rows, u, b) ==
      (if |RowsWithKey(rows, u, b)| > 0 then Some(RowsWithKey(rows, u, b)[0].score) else None)
  {
    if |rows| > 0 && !IsKey(rows[0], u, b) {
      ScoreOfFirstRow(rows[1..], u, b);
      assert RowsWithKey(rows, u, b) == RowsWithKey(rows[1..], u, b);
    }
  }

  /** Read as a map, the upsert is the map update (u, b) := s. */
  lemma UpsertIsMapUpdate(rows: seq<RatingRow>, u: UserId, b: BakeryId, s: int, u': UserId, b': BakeryId)
    ensures ScoreOf(Upsert(rows, u, b, s), u', b') ==
      (if u' == u && b' == b then Some(s) else ScoreOf(rows, u', b'))
  {
    if !(u' == u && b' == b) {
      ScoreOfFirstRow(rows, u', b');
      ScoreOfFirstRow(Upsert(rows, u, b, s), u', b');
    }
  }

  lemma OverwriteWithoutKey(rows: seq<RatingRow>, u: UserId, b: BakeryId, s: int)
    requires !HasKey(rows, u, b)
    ensures Overwrite(rows, u, b, s) == rows
  {
    var r := Overwrite(rows, u, b, s);
    forall i | 0 <= i < |rows| ensures r[i] == rows[i] {
      assert !IsKey(rows[i], u, b);
    }
  }

  /** Overwriting the one row of (u, b) swaps its old score for s in the bakery's sum. */
  lemma {:induction false} OverwriteScores(rows: seq<RatingRow>, u: UserId, b: BakeryId, s: int)
    requires UniqueRatingKeys(rows) && HasKey(rows, u, b)
    ensures |ScoresFor(Overwrite(rows, u, b, s), b)| == |ScoresFor(rows, b)|
    ensures Sum(ScoresFor(Overwrite(rows, u, b, s), b)) == Sum(ScoresFor(rows, b)) - ScoreOf(rows, u, b).value + s
  {
    var r := Overwrite(rows, u, b, s);
    var tail := rows[1..];
    assert r[1..] == Overwrite(tail, u, b, s);
    assert UniqueRatingKeys(tail) by {
      forall i, j | 0 <= i < j < |tail| ensures tail[i].user != tail[j].user || tail[i].bakery != tail[j].bakery {
        assert tail[i] == rows[i + 1] && tail[j] == rows[j + 1];
      }
    }
    if IsKey(rows[0], u, b) {
      assert !HasKey(tail, u, b) by {
        forall i | 0 <= i < |tail| ensures !IsKey(tail[i], u, b) {
          assert tail[i] == rows[i + 1];
        }
      }
      OverwriteWithoutKey(tail, u, b, s);
      assert ScoresFor(r, b) == [s] + ScoresFor(tail, b);
      assert ScoresFor(rows, b) == [rows[0].score] + ScoresFor(tail, b);
      SumConcat([s], ScoresFor(tail, b));
      SumConcat([rows[0].score], ScoresFor(tail, b));
    } else {
      assert HasKey(tail, u, b) by {
        var i :| 0 <= i < |rows| && IsKey(rows[i], u, b);
        assert tail[i - 1] == rows[i];
      }
      OverwriteScores(tail, u, b, s);
      var head := if rows[0].bakery == b then [rows[0].score] else [];
      assert r[0] == rows[0];
      assert ScoresFor(r, b) == head + ScoresFor(r[1..], b);
      assert ScoresFor(rows, b) == head + ScoresFor(tail, b);
      SumConcat(head, ScoresFor(r[1..], b));
      SumConcat(head, ScoresFor(tail, b));
    }
  }

  /** The upsert's effect on bakery b's scores: one more score when the pair
      was new, otherwise the pair's old score replaced by s. */
  lemma {:induction false} UpsertScores(rows: seq<RatingRow>, u: UserId, b: BakeryId, s: int)
    requires UniqueRatingKeys(rows)
    ensures |ScoresFor(Upsert(rows, u, b, s), b)| ==
      |ScoresFor(rows, b)| + (if ScoreOf(rows, u, b).None? then 1 else 0)
    ensures Sum(ScoresFor(Upsert(rows, u, b, s), b)) ==
      Sum(ScoresFor(rows, b)) + s - ScoreOf(rows, u, b).GetOr(0)
  {
    if ScoreOf(rows, u, b).Some? {
      assert Upsert(rows, u, b, s) == Overwrite(rows, u, b, s);
      OverwriteScores(rows, u, b, s);
    } else {
      assert Upsert(rows, u, b, s) == rows + [RatingRow(u, b, s)];
      ScoresForConcat(rows, [RatingRow(u, b, s)], b);
      assert ScoresFor([RatingRow(u, b, s)], b) == [s];
      SumConcat(ScoresFor(rows, b), [s]);
      assert Sum([s]) == s;
    }
  }

  lemma {:induction false} OverwriteOtherBakery(rows: seq<RatingRow>, u: UserId, b: BakeryId, s: int, other: BakeryId)
    requires other != b
    ensures ScoresFor(Overwrite(rows, u, b, s), other) == ScoresFor(rows, other)
  {
    if |rows| > 0 {
      assert Overwrite(rows, u, b, s)[1..] == Overwrite(rows[1..], u, b, s);
      OverwriteOtherBakery(rows[1..], u, b, s, other);
    }
  }

  /** A rating for one bakery does not touch the scores another bakery averages. */
  lemma UpsertOtherBakery(rows: seq<RatingRow>, u: UserId, b: BakeryId, s: int, other: BakeryId)
    requires other != b
    ensures ScoresFor(Upsert(rows, u, b, s), other) == ScoresFor(rows, other)
  {
    if ScoreOf(rows, u, b).Some? {
      OverwriteOtherBakery(rows, u, b, s, other);
    } else {
      ScoresForConcat(rows, [RatingRow(u, b, s)], other);
    }
  }

  const InvalidRating := "Invalid rating"
  const SubmitFailed := "Failed to submit rating"

  /** The guard of the submission: a truthy bakery id and a score in 1..5.
      A score of 0 is falsy and below 1, so it fails either way. */
  predicate ValidSubmission(bakeryId: Option<BakeryId>, score: Option<int>) {
    Given(bakeryId) && score.Some? && 1 <= score.value <= 5
  }

  /** POST /api/ratings for the authenticated `caller`: validate, upsert,
      re-read bakery b's scores, average them and write the average back.
      The three store calls fail independently, and nothing is rolled back. */
  function SubmitRating(st: State, caller: UserId, bakeryId: Option<BakeryId>, score: Option<int>, f: Faults): (o: Outcome)
    ensures o.state.users == st.users && o.state.favorites == st.favorites
    ensures o.state.bakeryRatings.Keys == st.bakeryRatings.Keys
    ensures o.response.status in {Ok, BadRequest, ServerError}
    ensures o.response.status == BadRequest <==> !ValidSubmission(bakeryId, score)
    ensures o.response.status == Ok <==>
      ValidSubmission(bakeryId, score) && !f.upsertFails && !f.fetchFails && !f.updateFails
    ensures !ValidSubmission(bakeryId, score) || f.upsertFails ==> o.state == st
    ensures ValidSubmission(bakeryId, score) && !f.upsertFails ==>
      o.state.ratings == Upsert(st.ratings, caller, bakeryId.value, score.value)
    ensures o.response.status != Ok ==> o.state.bakeryRatings == st.bakeryRatings
    ensures o.response.status == Ok ==>
      var b := bakeryId.value;
      var scores := ScoresFor(o.state.ratings, b);
      && |scores| >= 1
      && o.response.body.NewRating?
      && o.response.body.average == Mean(scores)
      && o.state.bakeryRatings ==
         (if b in st.bakeryRatings then st.bakeryRatings[b := o.response.body.average] else st.bakeryRatings)
  {
    if !ValidSubmission(bakeryId, score) then
      Outcome(st, Response(BadRequest, Message(InvalidRating)))
    else if f.upsertFails then
      Outcome(st, Response(ServerError, Message(SubmitFailed)))
    else
      var b, s := bakeryId.value, score.value;
      var rows := Upsert(st.ratings, caller, b, s);
      var upserted := st.(ratings := rows);
      if f.fetchFails then
        Outcome(upserted, Response(ServerError, Message(SubmitFailed)))
      else
        var scores := ScoresFor(rows, b);
        ScoresForMembers(rows, b);
        assert RatingRow(caller, b, s) in rows;
        var average := Mean(scores);
        if f.updateFails then
          Outcome(upserted, Response(ServerError, Message(SubmitFailed)))
        else
          var written := if b in st.bakeryRatings then st.bakeryRatings[b := average] else st.bakeryRatings;
          Outcome(upserted.(bakeryRatings := written), Response(Ok, NewRating(average)))
  }

  /** GET /api/ratings/my-rating/:bakeryId: `.single()` yields the row when
      exactly one matches; no row (code PGRST116) is not an error and reads as null. */
  function MyRating(st: State, caller: UserId, bakeryId: BakeryId, f: Faults): (r: Response)
    ensures r.status == ServerError <==> f.lookupFails
    ensures !f.lookupFails ==> r.status == Ok && r.body.MyScore?
    ensures !f.lookupFails && r.body.score.Some? ==> RatingRow(caller, bakeryId, r.body.score.value) in st.ratings
    ensures !f.lookupFails && UniqueRatingKeys(st.ratings) ==> r.body.score == ScoreOf(st.ratings, caller, bakeryId)
  {
    if f.lookupFails then Response(ServerError, Message(ServerErrorText))
    else
      var matches := RowsWithKey(st.ratings, caller, bakeryId);
      KeyRowCount(st.ratings, caller, bakeryId);
      ScoreOfFirstRow(st.ratings, caller, bakeryId);
      assert |matches| > 0 ==> matches[0] in matches;
      Response(Ok, MyScore(if |matches| == 1 then Some(matches[0].score) else None))
  }

  /** Every stored score lies in 1..5. */
  predicate ScoresInRange(rows: seq<RatingRow>) {
    forall i :: 0 <= i < |rows| ==> 1 <= rows[i].score <= 5
  }

  lemma {:induction false} SumBounds(xs: seq<int>, lo: int, hi: int)
    requires forall i :: 0 <= i < |xs| ==> lo <= xs[i] <= hi
    ensures lo * |xs| <= Sum(xs) <= hi * |xs|
  {
    if |xs| > 0 {
      SumBounds(xs[1..], lo, hi);
    }
  }

  /** The average of scores in 1..5 lies in 1..5. */
  lemma MeanInRange(xs: seq<int>)
    requires |xs| > 0
    requires forall i :: 0 <= i < |xs| ==> 1 <= xs[i] <= 5
    ensures 1.0 <= Mean(xs) <= 5.0
  {
    SumBounds(xs, 1, 5);
    QuotientBounds(Sum(xs) as real, |xs| as real, 1.0, 5.0);
  }

  lemma QuotientBounds(a: real, n: real, lo: real, hi: real)
    requires n > 0.0 && lo * n <= a <= hi * n
    ensures lo <= a / n <= hi
  {
    var q := a / n;
    assert q * n == a;
  }

  /** A submission keeps every stored score in 1..5, so the average it
      writes lies in 1..5 as well. */
  lemma SubmitKeepsRange(st: State, caller: UserId, bakeryId: Option<BakeryId>, score: Option<int>, f: Faults)
    requires ScoresInRange(st.ratings)
    ensures ScoresInRange(SubmitRating(st, caller, bakeryId, score, f).state.ratings)
    ensures var o := SubmitRating(st, caller, bakeryId, score, f);
      o.response.status == Ok ==> 1.0 <= o.response.body.average <= 5.0
  {
    var o := SubmitRating(st, caller, bakeryId, score, f);
    if ValidSubmission(bakeryId, score) && !f.upsertFails {
      var b, s := bakeryId.value, score.value;
      var r := o.state.ratings;
      forall i | 0 <= i < |r| ensures 1 <= r[i].score <= 5 {
        var x := r[i];
        if !IsKey(x, caller, b) {
          assert x in RowsWithKey(r, x.user, x.bakery);
          assert x in RowsWithKey(st.ratings, x.user, x.bakery);
        }
      }
      if o.response.status == Ok {
        var scores := ScoresFor(r, b);
        ScoresForMembers(r, b);
        forall i | 0 <= i < |scores| ensures 1 <= scores[i] <= 5 {
          assert scores[i] in scores;
        }
        MeanInRange(scores);
      }
    }
  }

  /** One submission of a batch: who scored, and what. */
  datatype Vote = Vote(user: UserId, score: int)

  /** Successful submissions for bakery b, applied in order. */
  function SubmitAll(st: State, b: BakeryId, votes: seq<Vote>): State
    decreases |votes|
  {
    if |votes| == 0 then st
    else SubmitAll(SubmitRating(st, votes[0].user, Some(b), Some(votes[0].score), NoFaults).state, b, votes[1..])
  }

  /** The last score user u submitted in the batch, if any. */
  function LastScore(votes: seq<Vote>, u: UserId): Option<int> {
    if |votes| == 0 then None
    else
      var later := LastScore(votes[1..], u);
      if later.Some? then later else if votes[0].user == u then Some(votes[0].score) else None
  }

  /** After a batch of submissions each user's stored score for b is the
      last one that user submitted; users who did not submit keep theirs. */
  lemma {:induction false} LastSubmissionWins(st: State, b: BakeryId, votes: seq<Vote>, u: UserId)
    requires b != ""
    requires forall i :: 0 <= i < |votes| ==> 1 <= votes[i].score <= 5
    ensures ScoreOf(SubmitAll(st, b, votes).ratings, u, b) ==
      (if LastScore(votes, u).Some? then LastScore(votes, u) else ScoreOf(st.ratings, u, b))
    decreases |votes|
  {
    if |votes| > 0 {
      var v := votes[0];
      var next := SubmitRating(st, v.user, Some(b), Some(v.score), NoFaults).state;
      UpsertIsMapUpdate(st.ratings, v.user, b, v.score, u, b);
      LastSubmissionWins(next, b, votes[1..], u);
    }
  }

  /** After a non-empty batch the stored average of b is the mean of the
      scores stored for b. */
  lemma {:induction false} BatchStoresMean(st: State, b: BakeryId, votes: seq<Vote>)
    requires b != "" && b in st.bakeryRatings && |votes| > 0
    requires forall i :: 0 <= i < |votes| ==> 1 <= votes[i].score <= 5
    ensures var fin := SubmitAll(st, b, votes);
      var scores := ScoresFor(fin.ratings, b);
      && |scores| > 0 && b in fin.bakeryRatings
      && fin.bakeryRatings[b] == Mean(scores)
    decreases |votes|
  {
    var next := SubmitRating(st, votes[0].user, Some(b), Some(votes[0].score), NoFaults).state;
    if |votes| > 1 {
      BatchStoresMean(next, b, votes[1..]);
    }
  }

  /** User u submitted at least once in the batch. */
  predicate Voted(votes: seq<Vote>, u: UserId) {
    exists i :: 0 <= i < |votes| && votes[i].user == u
  }

  /** A user has a last score exactly when they voted. */
  lemma {:induction false} LastScoreOfVoter(votes: seq<Vote>, u: UserId)
    ensures LastScore(votes, u).Some? <==> Voted(votes, u)
  {
    if |votes| > 0 {
      LastScoreOfVoter(votes[1..], u);
      assert forall k :: 0 <= k < |votes| - 1 ==> votes[1..][k] == votes[k + 1];
      if Voted(votes, u) && votes[0].user != u {
        var k :| 0 <= k < |votes| && votes[k].user == u;
        assert votes[1..][k - 1].user == u;
      }
    }
  }

  /** The last score of each of the given voters, in their order. */
  function LastScores(votes: seq<Vote>, voters: seq<UserId>): (r: seq<int>)
    requires forall i :: 0 <= i < |voters| ==> LastScore(votes, voters[i]).Some?
    ensures |r| == |voters|
    ensures forall i :: 0 <= i < |voters| ==> LastScore(votes, voters[i]) == Some(r[i])
  {
    if |voters| == 0 then []
    else [LastScore(votes, voters[0]).value] + LastScores(votes, voters[1..])
  }

  /** A successful batch keeps the (user, bakery) constraint. */
  lemma {:induction false} SubmitAllKeepsUnique(st: State, b: BakeryId, votes: seq<Vote>)
    requires b != ""
    requires forall i :: 0 <= i < |votes| ==> 1 <= votes[i].score <= 5
    requires UniqueRatingKeys(st.ratings)
    ensures UniqueRatingKeys(SubmitAll(st, b, votes).ratings)
    decreases |votes|
  {
    if |votes| > 0 {
      var next := SubmitRating(st, votes[0].user, Some(b), Some(votes[0].score), NoFaults).state;
      SubmitAllKeepsUnique(next, b, votes[1..]);
    }
  }

  /** Starting from no ratings for b, a non-empty batch leaves one row per
      distinct voter and stores for b the mean of each voter's last score. */
  lemma BatchAveragesLastScores(st: State, b: BakeryId, votes: seq<Vote>)
    requires b != "" && b in st.bakeryRatings && |votes| > 0
    requires forall i :: 0 <= i < |votes| ==> 1 <= votes[i].score <= 5
    requires UniqueRatingKeys(st.ratings)
    requires forall i :: 0 <= i < |st.ratings| ==> st.ratings[i].bakery != b
    ensures var fin := SubmitAll(st, b, votes);
      var voters := Raters(fin.ratings, b);
      && NoRepeats(voters)
      && (forall u :: u in voters <==> Voted(votes, u))
      && (forall i :: 0 <= i < |voters| ==> LastScore(votes, voters[i]).Some?)
      && |voters| > 0 && b in fin.bakeryRatings
      && fin.bakeryRatings[b] == Mean(LastScores(votes, voters))
  {
    var fin := SubmitAll(st, b, votes);
    BatchStoresMean(st, b, votes);
    SubmitAllKeepsUnique(st, b, votes);
    RatersMembers(fin.ratings, b);
    RatersNoRepeats(fin.ratings, b);
    RatersMatchScores(fin.ratings, b);
    forall u ensures ScoreOf(fin.ratings, u, b) == LastScore(votes, u) {
      LastSubmissionWins(st, b, votes, u);
      assert !HasKey(st.ratings, u, b);
    }
    var voters := Raters(fin.ratings, b);
    forall u ensures u in voters <==> Voted(votes, u) {
      LastScoreOfVoter(votes, u);
    }
    var last := LastScores(votes, voters);
    assert last == ScoresFor(fin.ratings, b);
  }
}

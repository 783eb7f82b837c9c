/** POST /api/favorites/:itemId, DELETE /api/favorites/:itemId and
    GET /api/favorites/my-favorites, all for the token's subject. */
module FavoriteRoutes {
  import opened Optional
  import opened Store
  import opened Http

  const AlreadyFavorite := "Already a favorite"
  const AddedText := "Added to favorites"
  const RemovedText := "Removed from favorites"

  /** POST /:itemId. The store's unique constraint on the pair answers a
      second insert with code 23505, which becomes 400; any other insert
      error becomes 500. */
  function AddFavorite(st: State, caller: UserId, itemId: BakeryId, f: Faults): (o: Outcome)
    ensures o.state.users == st.users && o.state.ratings == st.ratings
    ensures o.state.bakeryRatings == st.bakeryRatings
    ensures o.response.status in {Ok, BadRequest, ServerError}
    ensures f.insertFails ==> o.response == Response(ServerError, Message(ServerErrorText))
    ensures !f.insertFails && FavoriteRow(caller, itemId) in st.favorites ==>
      o.response == Response(BadRequest, Message(AlreadyFavorite))
    ensures o.response.status == Ok <==> !f.insertFails && FavoriteRow(caller, itemId) !in st.favorites
    ensures o.response.status == Ok ==> o.state.favorites == st.favorites + [FavoriteRow(caller, itemId)]
    ensures o.response.status != Ok ==> o.state == st
    ensures UniqueFavorites(st.favorites) ==> UniqueFavorites(o.state.favorites)
  {
    var row := FavoriteRow(caller, itemId);
    if f.insertFails then Outcome(st, Response(ServerError, Message(ServerErrorText)))
    else if row in st.favorites then Outcome(st, Response(BadRequest, Message(AlreadyFavorite)))
    else Outcome(st.(favorites := st.favorites + [row]), Response(Ok, Message(AddedText)))
  }

  /** The table with every copy of `row` deleted, other rows in order. */
  function Without(favs: seq<FavoriteRow>, row: FavoriteRow): (r: seq<FavoriteRow>)
    ensures forall x :: x in r <==> x in favs && x != row
    ensures row !in favs ==> r == favs
  {
    if |favs| == 0 then []
    else (if favs[0] == row then [] else [favs[0]]) + Without(favs[1..], row)
  }

  lemma {:induction false} WithoutKeepsUnique(favs: seq<FavoriteRow>, row: FavoriteRow)
    ensures UniqueFavorites(favs) ==> UniqueFavorites(Without(favs, row))
  {
    if |favs| > 0 && UniqueFavorites(favs) {
      var tail := favs[1..];
      assert UniqueFavorites(tail) by {
        forall i, j | 0 <= i < j < |tail| ensures tail[i] != tail[j] {
          assert tail[i] == favs[i + 1] && tail[j] == favs[j + 1];
        }
      }
      WithoutKeepsUnique(tail, row);
      var rest := Without(tail, row);
      assert favs[0] !in tail by {
        forall j | 0 <= j < |tail| ensures tail[j] != favs[0] {
          assert tail[j] == favs[j + 1];
        }
      }
      var r := Without(favs, row);
      if favs[0] != row {
        assert r == [favs[0]] + rest;
        forall i, j | 0 <= i < j < |r| ensures r[i] != r[j] {
          if i == 0 {
            assert r[j] == rest[j - 1];
            assert rest[j - 1] in rest;
          } else {
            assert r[i] == rest[i - 1] && r[j] == rest[j - 1];
          }
        }
      }
    }
  }

  /** DELETE /:itemId: deletes the caller's pair, whether or not it was there. */
  function RemoveFavorite(st: State, caller: UserId, itemId: BakeryId, f: Faults): (o: Outcome)
    ensures o.state.users == st.users && o.state.ratings == st.ratings
    ensures o.state.bakeryRatings == st.bakeryRatings
    ensures f.deleteFails ==> o == Outcome(st, Response(ServerError, Message(ServerErrorText)))
    ensures !f.deleteFails ==> o.response == Response(Ok, Message(RemovedText))
    ensures !f.deleteFails ==> forall x :: x in o.state.favorites <==> x in st.favorites && x != FavoriteRow(caller, itemId)
    ensures UniqueFavorites(st.favorites) ==> UniqueFavorites(o.state.favorites)
  {
    if f.deleteFails then Outcome(st, Response(ServerError, Message(ServerErrorText)))
    else
      WithoutKeepsUnique(st.favorites, FavoriteRow(caller, itemId));
      Outcome(st.(favorites := Without(st.favorites, FavoriteRow(caller, itemId))), Response(Ok, Message(RemovedText)))
  }

  /** Removing twice is removing once: same table, same answer. */
  lemma RemoveIsIdempotent(st: State, caller: UserId, itemId: BakeryId, f: Faults)
    ensures var once := RemoveFavorite(st, caller, itemId, f);
      RemoveFavorite(once.state, caller, itemId, f) == once
  {
  }

  /** The bakery ids of `u`'s favorite rows, in row order. */
  function FavoriteBakeries(favs: seq<FavoriteRow>, u: UserId): (ids: seq<BakeryId>)
    ensures forall b :: b in ids <==> FavoriteRow(u, b) in favs
    ensures |ids| <= |favs|
  {
    if |favs| == 0 then []
    else
      var rest := FavoriteBakeries(favs[1..], u);
      assert forall x :: x in favs <==> x == favs[0] || x in favs[1..];
      (if favs[0].user == u then [favs[0].bakery] else []) + rest
  }

  /** The bakery a favorite row points at, joined through its bakery id:
      None when no bakery has that id. */
  function JoinBakery(st: State, b: BakeryId): Option<Bakery> {
    if b in st.bakeryRatings then Some(Bakery(b, st.bakeryRatings[b])) else None
  }

  /** GET /my-favorites: one joined bakery per favorite row of the caller. */
  function MyFavorites(st: State, caller: UserId, f: Faults): (r: Response)
    ensures r.status == ServerError <==> f.lookupFails
    ensures !f.lookupFails ==>
      && r.status == Ok && r.body.FavoriteList?
      && |r.body.items| == |FavoriteBakeries(st.favorites, caller)|
      && (forall i :: 0 <= i < |r.body.items| ==>
            r.body.items[i] == JoinBakery(st, FavoriteBakeries(st.favorites, caller)[i]))
      && (forall i :: 0 <= i < |r.body.items| && r.body.items[i].Some? ==>
            FavoriteRow(caller, r.body.items[i].value.id) in st.favorites)
      && (forall b :: FavoriteRow(caller, b) in st.favorites && b in st.bakeryRatings ==>
            Some(Bakery(b, st.bakeryRatings[b])) in r.body.items)
  {
    if f.lookupFails then Response(ServerError, Message(ServerErrorText))
    else
      var ids := FavoriteBakeries(st.favorites, caller);
      var items := seq(|ids|, i requires 0 <= i < |ids| => JoinBakery(st, ids[i]));
      assert forall b :: b in ids ==> JoinBakery(st, b) in items by {
        forall b | b in ids ensures JoinBakery(st, b) in items {
          var i :| 0 <= i < |ids| && ids[i] == b;
          assert items[i] == JoinBakery(st, b);
        }
      }
      Response(Ok, FavoriteList(items))
  }

  lemma {:induction false} FavoriteBakeriesConcat(a: seq<FavoriteRow>, c: seq<FavoriteRow>, u: UserId)
    ensures FavoriteBakeries(a + c, u) == FavoriteBakeries(a, u) + FavoriteBakeries(c, u)
  {
    if |a| == 0 {
      assert a + c == c;
    } else {
      assert (a + c)[0] == a[0] && (a + c)[1..] == a[1..] + c;
      FavoriteBakeriesConcat(a[1..], c, u);
    }
  }

  /** A favorite just added is listed last; nobody else's list changes. */
  lemma AddThenList(st: State, caller: UserId, itemId: BakeryId, f: Faults, u: UserId)
    requires AddFavorite(st, caller, itemId, f).response.status == Ok
    ensures FavoriteBakeries(AddFavorite(st, caller, itemId, f).state.favorites, u) ==
      FavoriteBakeries(st.favorites, u) + (if u == caller then [itemId] else [])
  {
    FavoriteBakeriesConcat(st.favorites, [FavoriteRow(caller, itemId)], u);
  }

  lemma {:induction false} WithoutOtherUser(favs: seq<FavoriteRow>, row: FavoriteRow, u: UserId)
    requires row.user != u
    ensures FavoriteBakeries(Without(favs, row), u) == FavoriteBakeries(favs, u)
  {
    if |favs| > 0 {
      WithoutOtherUser(favs[1..], row, u);
      var head := if favs[0] == row then [] else [favs[0]];
      FavoriteBakeriesConcat(head, Without(favs[1..], row), u);
    }
  }

  /** Removing one of the caller's favorites leaves every other user's list as it was. */
  lemma RemoveKeepsOthersLists(st: State, caller: UserId, itemId: BakeryId, f: Faults, u: UserId)
    requires u != caller
    ensures FavoriteBakeries(RemoveFavorite(st, caller, itemId, f).state.favorites, u) ==
      FavoriteBakeries(st.favorites, u)
  {
    if !f.deleteFails {
      WithoutOtherUser(st.favorites, FavoriteRow(caller, itemId), u);
    }
  }
}

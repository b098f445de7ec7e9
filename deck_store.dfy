/** The list updates behind the saved-deck collection of the flashcard page: merging the
    server's decks with the ones only kept locally, deleting by id, and finding and touching
    one deck. */
module DeckStore {
  import opened Wrappers
  import opened Seqs
  import opened Cards

  /** The ids of `decks` (serverDeckIds). */
  function Ids(decks: seq<Deck>): (r: set<int>)
    ensures forall d :: d in decks ==> d.id in r
    ensures forall id :: id in r ==> exists d :: d in decks && d.id == id
  {
    set d | d in decks :: d.id
  }

  /** No two decks share an id. */
  ghost predicate UniqueIds(decks: seq<Deck>) {
    forall i, j :: 0 <= i < j < |decks| ==> decks[i].id != decks[j].id
  }

  /** The decks whose id is not in `ids`, in their original order (Array.prototype.filter). */
  function Exclude(decks: seq<Deck>, ids: set<int>): (r: seq<Deck>)
    ensures forall d :: d in r <==> d in decks && d.id !in ids
    ensures IsSubseq(r, decks)
    ensures |r| <= |decks|
    ensures |r| == |decks| <==> forall d :: d in decks ==> d.id !in ids
    decreases |decks|
  {
    if decks == [] then []
    else
      var init, last := decks[..|decks| - 1], decks[|decks| - 1];
      var rest := Exclude(init, ids);
      assert decks == init + [last];

      if last.id in ids then
        SubseqSkip(rest, init, last);
        rest
      else
        SubseqKeep(rest, init, last);
        rest + [last]
  }

  /** The filter keeps every copy of a kept deck and no copy of a dropped one. */
  lemma {:induction false} ExcludeCount(decks: seq<Deck>, ids: set<int>, d: Deck)
    ensures multiset(Exclude(decks, ids))[d] == if d.id in ids then 0 else multiset(decks)[d]
    decreases |decks|
  {
    if decks != [] {
      var init, last := decks[..|decks| - 1], decks[|decks| - 1];
      assert decks == init + [last];
      ExcludeCount(init, ids, d);
    }
  }

  lemma {:induction false} ExcludeAppend(a: seq<Deck>, b: seq<Deck>, ids: set<int>)
    ensures Exclude(a + b, ids) == Exclude(a, ids) + Exclude(b, ids)
    decreases |b|
  {
    if b == [] {
      assert a + b == a;
    } else {
      var b', last := b[..|b| - 1], b[|b| - 1];
      var tail := if last.id in ids then [] else [last];
      assert (a + b)[..|a + b| - 1] == a + b' && (a + b)[|a + b| - 1] == last;
      assert Exclude(a + b, ids) == Exclude(a + b', ids) + tail;
      assert Exclude(b, ids) == Exclude(b', ids) + tail;
      ExcludeAppend(a, b', ids);
    }
  }

  /** Filtering keeps a list whose ids are all outside `ids` as it is. */
  lemma {:induction false} ExcludeKeepsAll(decks: seq<Deck>, ids: set<int>)
    requires forall d :: d in decks ==> d.id !in ids
    ensures Exclude(decks, ids) == decks
    decreases |decks|
  {
    if decks != [] {
      ExcludeKeepsAll(decks[..|decks| - 1], ids);
      assert decks == decks[..|decks| - 1] + [decks[|decks| - 1]];
    }
  }

  /** Filtering a list whose ids are all in `ids` leaves nothing. */
  lemma {:induction false} ExcludeDropsAll(decks: seq<Deck>, ids: set<int>)
    requires forall d :: d in decks ==> d.id in ids
    ensures Exclude(decks, ids) == []
    decreases |decks|
  {
    if decks != [] {
      ExcludeDropsAll(decks[..|decks| - 1], ids);
    }
  }

  /** A filtered list of decks with distinct ids still has distinct ids. */
  lemma {:induction false} ExcludeUnique(decks: seq<Deck>, ids: set<int>)
    requires UniqueIds(decks)
    ensures UniqueIds(Exclude(decks, ids))
    decreases |decks|
  {
    if decks != [] {
      var init, last := decks[..|decks| - 1], decks[|decks| - 1];
      ExcludeUnique(init, ids);
      if last.id !in ids {
        var rest := Exclude(init, ids);
        forall d | d in rest ensures d.id != last.id {
          var k :| 0 <= k < |init| && init[k] == d;
          assert decks[k] == d;
        }
        var r := rest + [last];
        forall i, j | 0 <= i < j < |r| ensures r[i].id != r[j].id {
          if j == |rest| {
            assert r[i] in rest;
          } else {
            assert r[i] == rest[i] && r[j] == rest[j];
          }
        }
      }
    }
  }

  /** The merge of renderSavedDecks on a successful fetch: the server's decks in order, then
      the local decks whose id the server does not have, in their original order. */
  function MergeDecks(server: seq<Deck>, local: seq<Deck>): (r: seq<Deck>)
    ensures |server| <= |r| <= |server| + |local|
    ensures r[..|server|] == server
    ensures forall d :: d in r[|server|..] <==> d in local && d.id !in Ids(server)
    ensures IsSubseq(r[|server|..], local)
    ensures |r| == |server| + |local| <==> forall d :: d in local ==> d.id !in Ids(server)
  {
    var localOnly := Exclude(local, Ids(server));
    SubseqLength(localOnly, local);
    assert (server + localOnly)[|server|..] == localOnly;
    server + localOnly
  }

  /** Every copy of a server deck is in the merge, and so is every copy of a local deck whose
      id the server lacks. */
  lemma MergeCount(server: seq<Deck>, local: seq<Deck>, d: Deck)
    ensures multiset(MergeDecks(server, local))[d] ==
              multiset(server)[d] + if d.id in Ids(server) then 0 else multiset(local)[d]
  {
    ExcludeCount(local, Ids(server), d);
  }

  /** Merging again with the same server list changes nothing. */
  lemma MergeIdempotent(server: seq<Deck>, local: seq<Deck>)
    ensures MergeDecks(server, MergeDecks(server, local)) == MergeDecks(server, local)
  {
    var ids := Ids(server);
    var localOnly := Exclude(local, ids);
    var merged := server + localOnly;
    assert MergeDecks(server, local) == merged;
    calc {
      Exclude(merged, ids);
      { ExcludeAppend(server, localOnly, ids); }
      Exclude(server, ids) + Exclude(localOnly, ids);
      { ExcludeDropsAll(server, ids); ExcludeKeepsAll(localOnly, ids); }
      localOnly;
    }
    assert MergeDecks(server, merged) == server + Exclude(merged, ids);
  }

  /** Merging two lists whose ids are distinct yields a list whose ids are distinct. */
  lemma MergeUnique(server: seq<Deck>, local: seq<Deck>)
    requires UniqueIds(server) && UniqueIds(local)
    ensures UniqueIds(MergeDecks(server, local))
  {
    var ids := Ids(server);
    var localOnly := Exclude(local, ids);
    ExcludeUnique(local, ids);
    var r := server + localOnly;
    forall i, j | 0 <= i < j < |r| ensures r[i].id != r[j].id {
      if j < |server| {
        assert r[i] == server[i] && r[j] == server[j];
      } else if i < |server| {
        assert r[j] == localOnly[j - |server|];
        assert r[j] in localOnly;
      } else {
        assert r[i] == localOnly[i - |server|] && r[j] == localOnly[j - |server|];
      }
    }
  }

  /** Deleting by id (deleteDeck): no deck with that id is left, every other deck stays, in
      order. */
  function RemoveDeck(decks: seq<Deck>, id: int): (r: seq<Deck>)
    ensures forall d :: d in r ==> d.id != id
    ensures forall d :: d in decks && d.id != id ==> d in r
    ensures IsSubseq(r, decks)
    ensures |r| == |decks| <==> forall d :: d in decks ==> d.id != id
  {
    Exclude(decks, {id})
  }

  /** Deleting keeps every copy of every deck with another id. */
  lemma RemoveCount(decks: seq<Deck>, id: int, d: Deck)
    ensures multiset(RemoveDeck(decks, id))[d] == if d.id == id then 0 else multiset(decks)[d]
  {
    ExcludeCount(decks, {id}, d);
  }

  /** The index of the first deck with the given id (Array.prototype.findIndex / find). */
  function FindDeck(decks: seq<Deck>, id: int): (r: Option<nat>)
    ensures r.Some? ==> r.value < |decks| && decks[r.value].id == id
                        && forall j :: 0 <= j < r.value ==> decks[j].id != id
    ensures r.None? <==> forall d :: d in decks ==> d.id != id
  {
    if decks == [] then None
    else if decks[0].id == id then Some(0)
    else match FindDeck(decks[1..], id)
      case None => None
      case Some(k) => Some(k + 1)
  }

  /** updateDeckStudyTime's local update: the first deck with the id gets `now` as its
      lastStudied; nothing else changes. */
  function TouchDeck(decks: seq<Deck>, id: int, now: Timestamp): (r: seq<Deck>)
    ensures |r| == |decks|
    ensures forall i :: 0 <= i < |decks| && FindDeck(decks, id) != Some(i) ==> r[i] == decks[i]
    ensures forall i :: 0 <= i < |decks| && FindDeck(decks, id) == Some(i) ==>
              r[i] == decks[i].(lastStudied := now)
  {
    match FindDeck(decks, id)
    case None => decks
    case Some(k) => decks[k := decks[k].(lastStudied := now)]
  }
}

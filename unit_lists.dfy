/** The bot keeps two lists of units keyed by id (its health memory and its
    guard register) and edits them with `removeIf` and `add`. This module gives
    those edits as functions on sequences and proves what they keep. */
module UnitLists {
  import opened LiaApi

  /** The ids occurring in a list of units. */
  function IdsOf(s: seq<UnitData>): set<int>
  {
    set u | u in s :: u.id
  }

  /** No id occurs twice. */
  predicate UniqueIds(s: seq<UnitData>)
  {
    s == [] || (s[0].id !in IdsOf(s[1..]) && UniqueIds(s[1..]))
  }

  /** The first entry with the given id: `stream().filter(x -> x.id == id).findFirst()`. */
  function FindById(s: seq<UnitData>, id: int): (r: Option<UnitData>)
    ensures r.Some? <==> id in IdsOf(s)
    ensures r.Some? ==> r.value in s && r.value.id == id
  {
    if s == [] then None
    else if s[0].id == id then Some(s[0])
    else
      assert forall u :: u in s <==> u == s[0] || u in s[1..];
      FindById(s[1..], id)
  }

  /** The last entry with the given id. */
  function LastWithId(s: seq<UnitData>, id: int): (r: Option<UnitData>)
    ensures r.Some? <==> id in IdsOf(s)
    ensures r.Some? ==> r.value in s && r.value.id == id
  {
    if s == [] then None
    else if s[|s| - 1].id == id then Some(s[|s| - 1])
    else
      assert forall u :: u in s <==> u == s[|s| - 1] || u in s[..|s| - 1];
      LastWithId(s[..|s| - 1], id)
  }

  /** The entries whose id is NOT in ids, in their original order (`removeIf`). */
  function DropIds(s: seq<UnitData>, ids: set<int>): (r: seq<UnitData>)
    ensures |r| <= |s|
  {
    if s == [] then []
    else (if s[0].id in ids then [] else [s[0]]) + DropIds(s[1..], ids)
  }

  /** The entries whose id IS in ids, in their original order. */
  function KeepIds(s: seq<UnitData>, ids: set<int>): (r: seq<UnitData>)
    ensures |r| <= |s|
  {
    if s == [] then []
    else (if s[0].id in ids then [s[0]] else []) + KeepIds(s[1..], ids)
  }

  /** `removeIf(x -> x.id == id)`. */
  function RemoveId(s: seq<UnitData>, id: int): seq<UnitData>
  {
    DropIds(s, {id})
  }

  /** All entries stored for one id. */
  function EntriesFor(s: seq<UnitData>, id: int): seq<UnitData>
  {
    KeepIds(s, {id})
  }

  /** What the removal keeps: exactly the entries whose id is not listed. */
  lemma {:induction false} DropIdsMembers(s: seq<UnitData>, ids: set<int>)
    ensures forall u :: u in DropIds(s, ids) <==> u in s && u.id !in ids
  {
    if s != [] {
      DropIdsMembers(s[1..], ids);
      assert forall u :: u in s <==> u == s[0] || u in s[1..];
    }
  }

  /** What the selection keeps: exactly the entries whose id is listed. */
  lemma {:induction false} KeepIdsMembers(s: seq<UnitData>, ids: set<int>)
    ensures forall u :: u in KeepIds(s, ids) <==> u in s && u.id in ids
  {
    if s != [] {
      KeepIdsMembers(s[1..], ids);
      assert forall u :: u in s <==> u == s[0] || u in s[1..];
    }
  }

  /** a is a subsequence of b: b with some entries left out, order kept. */
  predicate IsSubsequence(a: seq<UnitData>, b: seq<UnitData>)
    decreases |b|
  {
    a == [] || (b != [] && ((a[0] == b[0] && IsSubsequence(a[1..], b[1..])) || IsSubsequence(a, b[1..])))
  }

  lemma {:induction false} KeepIdsAppend(a: seq<UnitData>, b: seq<UnitData>, ids: set<int>)
    ensures KeepIds(a + b, ids) == KeepIds(a, ids) + KeepIds(b, ids)
  {
    if a != [] {
      assert (a + b)[0] == a[0] && (a + b)[1..] == a[1..] + b;
      KeepIdsAppend(a[1..], b, ids);
      var h := if a[0].id in ids then [a[0]] else [];
      assert KeepIds(a + b, ids) == h + KeepIds(a[1..] + b, ids);
      assert h + (KeepIds(a[1..], ids) + KeepIds(b, ids)) == (h + KeepIds(a[1..], ids)) + KeepIds(b, ids);
    } else {
      assert a + b == b;
    }
  }

  lemma {:induction false} DropIdsAppend(a: seq<UnitData>, b: seq<UnitData>, ids: set<int>)
    ensures DropIds(a + b, ids) == DropIds(a, ids) + DropIds(b, ids)
  {
    if a != [] {
      assert (a + b)[0] == a[0] && (a + b)[1..] == a[1..] + b;
      DropIdsAppend(a[1..], b, ids);
      var h := if a[0].id in ids then [] else [a[0]];
      assert DropIds(a + b, ids) == h + DropIds(a[1..] + b, ids);
      assert h + (DropIds(a[1..], ids) + DropIds(b, ids)) == (h + DropIds(a[1..], ids)) + DropIds(b, ids);
    } else {
      assert a + b == b;
    }
  }

  /** Dropping some ids does not disturb the entries of the other ids. */
  lemma {:induction false} KeepAfterDrop(s: seq<UnitData>, dropped: set<int>, kept: set<int>)
    requires dropped !! kept
    ensures KeepIds(DropIds(s, dropped), kept) == KeepIds(s, kept)
  {
    if s != [] {
      KeepAfterDrop(s[1..], dropped, kept);
      KeepIdsAppend(if s[0].id in dropped then [] else [s[0]], DropIds(s[1..], dropped), kept);
    }
  }

  /** Removing no ids changes nothing. */
  lemma {:induction false} DropNoIds(s: seq<UnitData>)
    ensures DropIds(s, {}) == s
  {
    if s != [] {
      DropNoIds(s[1..]);
      assert [s[0]] + s[1..] == s;
    }
  }

  /** One more step of a filtering loop over a prefix. */
  lemma DropPrefixStep(s: seq<UnitData>, k: nat, ids: set<int>)
    requires k < |s|
    ensures DropIds(s[..k + 1], ids) == DropIds(s[..k], ids) + if s[k].id in ids then [] else [s[k]]
  {
    assert s[..k + 1] == s[..k] + [s[k]];
    DropIdsAppend(s[..k], [s[k]], ids);
    assert [s[k]][1..] == [];
  }

  lemma IdsOfPrefixStep(s: seq<UnitData>, k: nat)
    requires k < |s|
    ensures IdsOf(s[..k + 1]) == IdsOf(s[..k]) + {s[k].id}
  {
    assert s[..k + 1] == s[..k] + [s[k]];
  }

  /** Nothing of the removed ids is left. */
  lemma {:induction false} KeepDropped(s: seq<UnitData>, ids: set<int>)
    ensures KeepIds(DropIds(s, ids), ids) == []
  {
    if s != [] {
      KeepDropped(s[1..], ids);
      KeepIdsAppend(if s[0].id in ids then [] else [s[0]], DropIds(s[1..], ids), ids);
    }
  }

  /** Two removals in a row remove the union of the ids. */
  lemma {:induction false} DropDrop(s: seq<UnitData>, a: set<int>, b: set<int>)
    ensures DropIds(DropIds(s, a), b) == DropIds(s, a + b)
  {
    if s != [] {
      DropDrop(s[1..], a, b);
      DropIdsAppend(if s[0].id in a then [] else [s[0]], DropIds(s[1..], a), b);
    }
  }

  /** Dropping the ids of D equals keeping the ids of U when, on the entries of
      s, "in D" and "not in U" agree. */
  lemma {:induction false} DropAgreesWithKeep(s: seq<UnitData>, d: set<int>, u: set<int>)
    requires forall x :: x in s ==> (x.id in d <==> x.id !in u)
    ensures DropIds(s, d) == KeepIds(s, u)
  {
    if s != [] {
      assert s[0] in s;
      assert forall x :: x in s[1..] ==> x in s;
      DropAgreesWithKeep(s[1..], d, u);
    }
  }

  /** Collecting the entries whose id is not in U and then removing every id
      collected leaves exactly the entries whose id is in U. */
  lemma DropCollected(s: seq<UnitData>, u: set<int>)
    ensures DropIds(s, IdsOf(DropIds(s, u))) == KeepIds(s, u)
  {
    var d := IdsOf(DropIds(s, u));
    DropIdsMembers(s, u);
    forall x | x in s
      ensures x.id in d <==> x.id !in u
    {
      if x.id !in u {
        assert x in DropIds(s, u);
      }
    }
    DropAgreesWithKeep(s, d, u);
  }

  lemma {:induction false} KeepIdsSubsequence(s: seq<UnitData>, ids: set<int>)
    ensures IsSubsequence(KeepIds(s, ids), s)
  {
    if s != [] {
      KeepIdsSubsequence(s[1..], ids);
      var k := KeepIds(s, ids);
      if s[0].id in ids {
        assert k[0] == s[0] && k[1..] == KeepIds(s[1..], ids);
      } else {
        assert k == KeepIds(s[1..], ids);
      }
    }
  }

  lemma {:induction false} UniqueAppend(s: seq<UnitData>, x: UnitData)
    requires UniqueIds(s) && x.id !in IdsOf(s)
    ensures UniqueIds(s + [x])
  {
    if s != [] {
      assert (s + [x])[0] == s[0] && (s + [x])[1..] == s[1..] + [x];
      assert s[0] in s;
      assert forall u :: u in s[1..] ==> u in s;
      UniqueAppend(s[1..], x);
    }
  }

  lemma {:induction false} UniqueKeep(s: seq<UnitData>, ids: set<int>)
    requires UniqueIds(s)
    ensures UniqueIds(KeepIds(s, ids))
  {
    if s != [] {
      UniqueKeep(s[1..], ids);
      KeepIdsMembers(s[1..], ids);
      var k := KeepIds(s, ids);
      if s[0].id in ids {
        assert k[0] == s[0] && k[1..] == KeepIds(s[1..], ids);
        assert IdsOf(k[1..]) <= IdsOf(s[1..]);
      } else {
        assert k == KeepIds(s[1..], ids);
      }
    }
  }

  lemma {:induction false} UniqueDrop(s: seq<UnitData>, ids: set<int>)
    requires UniqueIds(s)
    ensures UniqueIds(DropIds(s, ids))
  {
    if s != [] {
      UniqueDrop(s[1..], ids);
      DropIdsMembers(s[1..], ids);
      var k := DropIds(s, ids);
      if s[0].id !in ids {
        assert k[0] == s[0] && k[1..] == DropIds(s[1..], ids);
        assert IdsOf(k[1..]) <= IdsOf(s[1..]);
      } else {
        assert k == DropIds(s[1..], ids);
      }
    }
  }

  /** In a list without duplicate ids, the first entry with an id is the only one. */
  lemma {:induction false} FindByIdUnique(s: seq<UnitData>, e: UnitData)
    requires UniqueIds(s) && e in s
    ensures FindById(s, e.id) == Some(e)
  {
    if s[0] != e {
      assert e in s[1..];
      FindByIdUnique(s[1..], e);
    }
  }

  /** Replacing the entry of u.id by u: afterwards u is the one entry for its id
      and the entries of every other id are as before. */
  lemma RecordEntries(s: seq<UnitData>, u: UnitData, id: int)
    ensures EntriesFor(RemoveId(s, u.id) + [u], id) == if id == u.id then [u] else EntriesFor(s, id)
  {
    KeepIdsAppend(RemoveId(s, u.id), [u], {id});
    assert [u][1..] == [];
    if id == u.id {
      KeepDropped(s, {id});
    } else {
      KeepAfterDrop(s, {u.id}, {id});
    }
  }
}

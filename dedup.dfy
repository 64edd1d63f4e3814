/** De-duplication of speaker lists by their `id` property, as lodash's
    `uniqBy(list, 'id')` does it: scan left to right, keep an entry when its
    id has not been seen yet, so the first occurrence wins and order is kept. */
module Dedup {
  import opened JsValue

  /** A speaker profile as the gateway returns it: an object whose `id`
      property identifies it. */
  type Speaker = Record

  /** `speaker.id` (`undefined` when absent; all such entries share one id). */
  function IdOf(s: Speaker): Value {
    Get(s, "id")
  }

  /** The ids occurring in a list. */
  function Ids(xs: seq<Speaker>): set<Value> {
    set i | 0 <= i < |xs| :: IdOf(xs[i])
  }

  /** No two entries share an id. */
  predicate UniqueIds(xs: seq<Speaker>) {
    forall i, j :: 0 <= i < j < |xs| ==> IdOf(xs[i]) != IdOf(xs[j])
  }

  /** The scan of `uniqBy`, started with the ids in `seen` already taken. */
  function UniqFrom(xs: seq<Speaker>, seen: set<Value>): (r: seq<Speaker>)
    ensures |r| <= |xs|
    ensures UniqueIds(r)
    ensures Ids(r) == Ids(xs) - seen
    ensures forall i :: 0 <= i < |r| ==> r[i] in xs
    decreases |xs|
  {
    if xs == [] then []
    else if IdOf(xs[0]) in seen then
      IdsCons(xs);
      UniqFrom(xs[1..], seen)
    else
      IdsCons(xs);
      var rest := UniqFrom(xs[1..], seen + {IdOf(xs[0])});
      IdsCons([xs[0]] + rest);
      assert ([xs[0]] + rest)[1..] == rest;
      [xs[0]] + rest
  }

  /** `uniqBy(xs, 'id')`. */
  function UniqById(xs: seq<Speaker>): (r: seq<Speaker>)
    ensures |r| <= |xs|
    ensures UniqueIds(r)
    ensures Ids(r) == Ids(xs)
    ensures forall i :: 0 <= i < |r| ==> r[i] in xs
  {
    UniqFrom(xs, {})
  }

  /** Independent reading of "first occurrence wins": entry `j` is kept
      exactly when its id is not in `seen` and no earlier entry carries it. */
  predicate FirstOfItsId(xs: seq<Speaker>, j: nat, seen: set<Value>)
    requires j < |xs|
  {
    IdOf(xs[j]) !in seen && forall k :: 0 <= k < j ==> IdOf(xs[k]) != IdOf(xs[j])
  }

  /** The entries that are the first of their id, in their original order. */
  function FirstOccurrences(xs: seq<Speaker>, seen: set<Value>): seq<Speaker>
    decreases |xs|
  {
    if xs == [] then []
    else
      var n := |xs| - 1;
      FirstOccurrences(xs[..n], seen) + (if FirstOfItsId(xs, n, seen) then [xs[n]] else [])
  }

  lemma IdsCons(xs: seq<Speaker>)
    requires xs != []
    ensures Ids(xs) == {IdOf(xs[0])} + Ids(xs[1..])
  {
    forall v | v in Ids(xs) ensures v in {IdOf(xs[0])} + Ids(xs[1..]) {
      var i :| 0 <= i < |xs| && IdOf(xs[i]) == v;
      if i > 0 { assert xs[1..][i - 1] == xs[i]; }
    }
    forall v | v in Ids(xs[1..]) ensures v in Ids(xs) {
      var i :| 0 <= i < |xs[1..]| && IdOf(xs[1..][i]) == v;
      assert xs[i + 1] == xs[1..][i];
    }
  }

  lemma IdsConcat(a: seq<Speaker>, b: seq<Speaker>)
    ensures Ids(a + b) == Ids(a) + Ids(b)
  {
    forall v | v in Ids(a + b) ensures v in Ids(a) + Ids(b) {
      var i :| 0 <= i < |a + b| && IdOf((a + b)[i]) == v;
      if i >= |a| { assert (a + b)[i] == b[i - |a|]; }
    }
    forall v | v in Ids(b) ensures v in Ids(a + b) {
      var i :| 0 <= i < |b| && IdOf(b[i]) == v;
      assert (a + b)[|a| + i] == b[i];
    }
    forall v | v in Ids(a) ensures v in Ids(a + b) {
      var i :| 0 <= i < |a| && IdOf(a[i]) == v;
      assert (a + b)[i] == a[i];
    }
  }

  /** Scanning `a + b` is scanning `a`, then scanning `b` with `a`'s ids
      taken as well. */
  lemma {:induction false} UniqFromConcat(a: seq<Speaker>, b: seq<Speaker>, seen: set<Value>)
    ensures UniqFrom(a + b, seen) == UniqFrom(a, seen) + UniqFrom(b, seen + Ids(a))
    decreases |a|
  {
    if a == [] {
      assert a + b == b;
      assert Ids(a) == {};
      assert seen + Ids(a) == seen;
    } else {
      IdsCons(a);
      assert (a + b)[0] == a[0];
      assert (a + b)[1..] == a[1..] + b;
      var x := IdOf(a[0]);
      if x in seen {
        UniqFromConcat(a[1..], b, seen);
        assert seen + Ids(a) == seen + Ids(a[1..]);
      } else {
        UniqFromConcat(a[1..], b, seen + {x});
        assert seen + {x} + Ids(a[1..]) == seen + Ids(a);
      }
    }
  }

  /** The tail of an id-unique list is id-unique and lacks the head's id. */
  lemma UniqueTail(xs: seq<Speaker>)
    requires xs != [] && UniqueIds(xs)
    ensures UniqueIds(xs[1..])
    ensures IdOf(xs[0]) !in Ids(xs[1..])
  {
    forall i | 0 <= i < |xs[1..]| ensures IdOf(xs[1..][i]) != IdOf(xs[0]) {
      assert xs[1..][i] == xs[i + 1];
    }
    forall i, j | 0 <= i < j < |xs[1..]| ensures IdOf(xs[1..][i]) != IdOf(xs[1..][j]) {
      assert xs[1..][i] == xs[i + 1] && xs[1..][j] == xs[j + 1];
    }
  }

  /** A list whose ids are distinct and fresh passes the scan unchanged. */
  lemma {:induction false} UniqFromUnique(xs: seq<Speaker>, seen: set<Value>)
    requires UniqueIds(xs)
    requires Ids(xs) !! seen
    ensures UniqFrom(xs, seen) == xs
    decreases |xs|
  {
    if xs != [] {
      IdsCons(xs);
      UniqueTail(xs);
      var x := IdOf(xs[0]);
      assert Ids(xs[1..]) !! seen + {x};
      UniqFromUnique(xs[1..], seen + {x});
      assert [xs[0]] + xs[1..] == xs;
    }
  }

  /** De-duplication is idempotent, and the identity on id-unique lists. */
  lemma UniqByIdIdempotent(xs: seq<Speaker>)
    ensures UniqueIds(xs) ==> UniqById(xs) == xs
    ensures UniqById(UniqById(xs)) == UniqById(xs)
  {
    if UniqueIds(xs) { UniqFromUnique(xs, {}); }
    UniqFromUnique(UniqById(xs), {});
  }

  /** The scan keeps exactly the first occurrences, in order. */
  lemma {:induction false} UniqFromIsFirstOccurrences(xs: seq<Speaker>, seen: set<Value>)
    ensures UniqFrom(xs, seen) == FirstOccurrences(xs, seen)
    decreases |xs|
  {
    if xs != [] {
      var n := |xs| - 1;
      var a, x := xs[..n], xs[n];
      assert xs == a + [x];
      UniqFromConcat(a, [x], seen);
      UniqFromIsFirstOccurrences(a, seen);
      IdsCons([x]);
      assert [x][1..] == [];
      assert UniqFrom([x], seen + Ids(a)) == if IdOf(x) in seen + Ids(a) then [] else [x];
      if IdOf(x) in Ids(a) {
        var k :| 0 <= k < |a| && IdOf(a[k]) == IdOf(x);
        assert xs[k] == a[k];
        assert !FirstOfItsId(xs, n, seen);
      } else {
        forall k | 0 <= k < n ensures IdOf(xs[k]) != IdOf(xs[n]) {
          assert xs[k] == a[k];
        }
      }
    }
  }

  /** Appending a batch to a list: the de-duplicated list is followed by the
      batch entries whose ids are new, so no earlier entry moves or is
      replaced and a later entry with a known id is dropped. */
  lemma AppendKeepsEarlier(prior: seq<Speaker>, batch: seq<Speaker>)
    ensures UniqById(prior + batch) == UniqById(prior) + UniqFrom(batch, Ids(prior))
    ensures Ids(UniqFrom(batch, Ids(prior))) == Ids(batch) - Ids(prior)
    ensures |UniqById(prior + batch)| <= |prior| + |batch|
  {
    UniqFromConcat(prior, batch, {});
    assert {} + Ids(prior) == Ids(prior);
  }
}

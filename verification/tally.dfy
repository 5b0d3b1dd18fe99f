/**
 * Python's counting idiom `counts[k] = counts.get(k, 0) + 1` over a list of keys. The dictionary is
 * a list of entries in insertion order; keys are compared as Python's dict compares them (`True == 1`),
 * and the entry keeps the first key object that was inserted.
 */
module Tally {
  import opened Json

  datatype Entry = Entry(key: Value, count: nat)

  /** How many of `keys` equal `k`: the reference the counting dictionary is checked against. */
  function Occurrences(keys: seq<Value>, k: Value): nat {
    if |keys| == 0 then 0
    else (if PyEq(keys[0], k) then 1 else 0) + Occurrences(keys[1..], k)
  }

  /** `counts.get(k, 0)`. */
  function Lookup(t: seq<Entry>, k: Value): nat {
    if |t| == 0 then 0
    else if PyEq(t[0].key, k) then t[0].count
    else Lookup(t[1..], k)
  }

  /** The sum of all counts. */
  function Total(t: seq<Entry>): nat {
    if |t| == 0 then 0 else t[0].count + Total(t[1..])
  }

  /** No two entries hold keys Python considers equal. */
  ghost predicate DistinctKeys(t: seq<Entry>) {
    forall i, j :: 0 <= i < j < |t| ==> !PyEq(t[i].key, t[j].key)
  }

  /** `counts[k] = counts.get(k, 0) + 1`. */
  function Bump(t: seq<Entry>, k: Value): (r: seq<Entry>)
    ensures |r| == |t| || (|r| == |t| + 1 && r[|t|].key == k && forall i :: 0 <= i < |t| ==> !PyEq(t[i].key, k))
    ensures forall j :: 0 <= j < |t| ==> r[j].key == t[j].key
  {
    if |t| == 0 then [Entry(k, 1)]
    else if PyEq(t[0].key, k) then [Entry(t[0].key, t[0].count + 1)] + t[1..]
    else
      var rest := Bump(t[1..], k);
      assert forall j :: 1 <= j < |t| ==> t[j] == t[1..][j - 1];
      [t[0]] + rest
  }

  /** Bumping `k` adds one to the count of `k` and leaves every other count alone. */
  lemma {:induction false} BumpLookup(t: seq<Entry>, k: Value, k': Value)
    ensures Lookup(Bump(t, k), k') == Lookup(t, k') + (if PyEq(k, k') then 1 else 0)
  {
    if |t| > 0 && !PyEq(t[0].key, k) {
      BumpLookup(t[1..], k, k');
      assert Bump(t, k) == [t[0]] + Bump(t[1..], k);
      assert (Bump(t, k))[1..] == Bump(t[1..], k);
    }
  }

  /** Bumping adds one to the total. */
  lemma {:induction false} BumpTotal(t: seq<Entry>, k: Value)
    ensures Total(Bump(t, k)) == Total(t) + 1
  {
    if |t| > 0 {
      if PyEq(t[0].key, k) {
        assert Bump(t, k)[1..] == t[1..];
      } else {
        BumpTotal(t[1..], k);
        assert Bump(t, k)[1..] == Bump(t[1..], k);
      }
    }
  }

  /** Bumping never files the same key twice. */
  lemma BumpDistinct(t: seq<Entry>, k: Value)
    requires DistinctKeys(t)
    ensures DistinctKeys(Bump(t, k))
  {
  }

  /** The dictionary the counting loops of `get_statistics` build from `keys`. */
  function Counts(keys: seq<Value>): (t: seq<Entry>)
    ensures DistinctKeys(t)
    ensures Total(t) == |keys|
    ensures forall j :: 0 <= j < |t| ==> t[j].key in keys
  {
    if |keys| == 0 then []
    else
      var init := keys[..|keys| - 1];
      var last := keys[|keys| - 1];
      var previous := Counts(init);
      BumpTotal(previous, last);
      BumpDistinct(previous, last);
      assert forall x :: x in init ==> x in keys;
      Bump(previous, last)
  }

  lemma {:induction false} OccurrencesAppend(a: seq<Value>, b: seq<Value>, k: Value)
    ensures Occurrences(a + b, k) == Occurrences(a, k) + Occurrences(b, k)
  {
    if |a| == 0 {
      assert a + b == b;
    } else {
      assert (a + b)[1..] == a[1..] + b;
      OccurrencesAppend(a[1..], b, k);
    }
  }

  /** Looking any key up in the counting dictionary gives its number of occurrences. */
  lemma {:induction false} CountIsOccurrences(keys: seq<Value>, k: Value)
    ensures Lookup(Counts(keys), k) == Occurrences(keys, k)
  {
    if |keys| > 0 {
      CountIsOccurrences(keys[..|keys| - 1], k);
      CountsStep(keys, k);
      OccurrencesStep(keys, k);
    }
  }

  lemma CountsStep(keys: seq<Value>, k: Value)
    requires |keys| > 0
    ensures Lookup(Counts(keys), k)
         == Lookup(Counts(keys[..|keys| - 1]), k) + (if PyEq(keys[|keys| - 1], k) then 1 else 0)
  {
    BumpLookup(Counts(keys[..|keys| - 1]), keys[|keys| - 1], k);
  }

  lemma OccurrencesStep(keys: seq<Value>, k: Value)
    requires |keys| > 0
    ensures Occurrences(keys, k)
         == Occurrences(keys[..|keys| - 1], k) + (if PyEq(keys[|keys| - 1], k) then 1 else 0)
  {
    var init, last := keys[..|keys| - 1], keys[|keys| - 1];
    OccurrencesAppend(init, [last], k);
    assert [last][1..] == [];
    assert keys == init + [last];
  }

  /** Every key of the input has an entry, and an entry exists only for keys that occur. */
  lemma CountCoversKeys(keys: seq<Value>, k: Value)
    ensures Lookup(Counts(keys), k) > 0 <==> exists i :: 0 <= i < |keys| && PyEq(keys[i], k)
  {
    CountIsOccurrences(keys, k);
    OccurrencesPositive(keys, k);
  }

  lemma {:induction false} OccurrencesPositive(keys: seq<Value>, k: Value)
    ensures Occurrences(keys, k) > 0 <==> exists i :: 0 <= i < |keys| && PyEq(keys[i], k)
  {
    if |keys| > 0 {
      OccurrencesPositive(keys[1..], k);
      if Occurrences(keys[1..], k) > 0 {
        var i :| 0 <= i < |keys[1..]| && PyEq(keys[1..][i], k);
        assert keys[i + 1] == keys[1..][i];
      }
      if exists i :: 0 <= i < |keys| && PyEq(keys[i], k) {
        var i :| 0 <= i < |keys| && PyEq(keys[i], k);
        if i > 0 {
          assert keys[1..][i - 1] == keys[i];
        }
      }
    }
  }

  /** With distinct keys, looking up an entry's own key finds that entry. */
  lemma {:induction false} LookupEntry(t: seq<Entry>, j: nat)
    requires DistinctKeys(t)
    requires j < |t|
    ensures Lookup(t, t[j].key) == t[j].count
  {
    if j > 0 {
      assert !PyEq(t[0].key, t[j].key);
      assert t[1..][j - 1] == t[j];
      LookupEntry(t[1..], j - 1);
    }
  }

  /** Each entry of the counting dictionary holds the number of occurrences of its key. */
  lemma EntryCountsOccurrences(keys: seq<Value>, j: nat)
    requires j < |Counts(keys)|
    ensures Counts(keys)[j].count == Occurrences(keys, Counts(keys)[j].key)
    ensures Counts(keys)[j].count > 0
  {
    var t := Counts(keys);
    LookupEntry(t, j);
    CountIsOccurrences(keys, t[j].key);
    var i :| 0 <= i < |keys| && keys[i] == t[j].key;
    OccurrencesPositive(keys, t[j].key);
  }

  /** The counting dictionary holds only keys that occur in the input, each with a positive count. */
  lemma CountsPositive(keys: seq<Value>)
    ensures forall j :: 0 <= j < |Counts(keys)| ==> Counts(keys)[j].key in keys && Counts(keys)[j].count > 0
  {
    forall j | 0 <= j < |Counts(keys)|
      ensures Counts(keys)[j].count > 0
    {
      EntryCountsOccurrences(keys, j);
    }
  }
}

/** The sort query: validates its two arguments, then orders the stored
    entries by height, weight or bmi, ascending or descending. The order is
    stable in both directions, and an entry missing the sort key sorts as
    if its value were 0. */
module Sorting {
  import opened Wrappers
  import opened Errors
  import opened Patients
  import opened Store

  datatype SortField = ByHeight | ByWeight | ByBmi
  datatype Order = Asc | Desc

  /** Reads the `sort_by` argument; only height, weight and bmi are accepted. */
  function ParseField(name: string): (r: Option<SortField>)
    ensures r.Some? <==> name in {"height", "weight", "bmi"}
    ensures r == Some(ByHeight) <==> name == "height"
    ensures r == Some(ByWeight) <==> name == "weight"
    ensures r == Some(ByBmi) <==> name == "bmi"
  {
    if name == "height" then Some(ByHeight)
    else if name == "weight" then Some(ByWeight)
    else if name == "bmi" then Some(ByBmi)
    else None
  }

  /** Reads the `order` argument; only asc and desc are accepted. */
  function ParseOrder(name: string): (r: Option<Order>)
    ensures r.Some? <==> name in {"asc", "desc"}
    ensures r == Some(Desc) <==> name == "desc"
  {
    if name == "asc" then Some(Asc)
    else if name == "desc" then Some(Desc)
    else None
  }

  /** The sort key of an entry: the named field, or 0 when the entry has none. */
  function Key(e: Entry, f: SortField): (r: real)
    ensures f == ByHeight ==> r == (if e.height.Some? then e.height.value else 0.0)
    ensures f == ByWeight ==> r == (if e.weight.Some? then e.weight.value else 0.0)
    ensures f == ByBmi ==> r == (if e.bmi.Some? then e.bmi.value else 0.0)
  {
    match f
    case ByHeight => e.height.GetOr(0.0)
    case ByWeight => e.weight.GetOr(0.0)
    case ByBmi => e.bmi.GetOr(0.0)
  }

  /** `a` may precede `b` in the requested direction. */
  predicate Before(o: Order, a: real, b: real) {
    match o
    case Asc => a <= b
    case Desc => a >= b
  }

  ghost predicate Sorted(s: seq<Entry>, f: SortField, o: Order) {
    forall i, j :: 0 <= i < j < |s| ==> Before(o, Key(s[i], f), Key(s[j], f))
  }

  /** The entries of `s` whose key is `k`, in their order in `s`. */
  function WithKey(s: seq<Entry>, f: SortField, k: real): (r: seq<Entry>) {
    if s == [] then []
    else (if Key(s[0], f) == k then [s[0]] else []) + WithKey(s[1..], f, k)
  }

  /** Equal-key entries keep their relative order. */
  ghost predicate StableFor(r: seq<Entry>, s: seq<Entry>, f: SortField) {
    forall k :: WithKey(r, f, k) == WithKey(s, f, k)
  }

  /** The entry list of one key value, for a single entry. */
  function Single(e: Entry, f: SortField, k: real): (r: seq<Entry>) {
    if Key(e, f) == k then [e] else []
  }

  lemma WithKeyCons(e: Entry, t: seq<Entry>, f: SortField, k: real)
    ensures WithKey([e] + t, f, k) == Single(e, f, k) + WithKey(t, f, k)
  {
  }

  /** `y` may precede every entry of `r`. */
  ghost predicate Leads(y: Entry, r: seq<Entry>, f: SortField, o: Order) {
    forall i :: 0 <= i < |r| ==> Before(o, Key(y, f), Key(r[i], f))
  }

  lemma PrependSorted(y: Entry, r: seq<Entry>, f: SortField, o: Order)
    requires Sorted(r, f, o)
    requires Leads(y, r, f, o)
    ensures Sorted([y] + r, f, o)
  {
  }

  /** If `y` may precede `x` and every entry of `t`, it may precede every
      entry of a rearrangement of `[x] + t`. */
  lemma LeadsPermutation(y: Entry, x: Entry, t: seq<Entry>, r: seq<Entry>, f: SortField, o: Order)
    requires multiset(r) == multiset([x] + t)
    requires Before(o, Key(y, f), Key(x, f))
    requires Leads(y, t, f, o)
    ensures Leads(y, r, f, o)
  {
    forall i | 0 <= i < |r|
      ensures Before(o, Key(y, f), Key(r[i], f))
    {
      assert r[i] in multiset(r);
      assert r[i] in multiset([x] + t);
      assert r[i] in [x] + t;
      if r[i] != x {
        assert r[i] in t;
        var j :| 0 <= j < |t| && t[j] == r[i];
      }
    }
  }

  /** Inserts `x` into the sorted `t` before the first entry it may
      precede, so that it lands ahead of every entry with an equal key. */
  function Insert(x: Entry, t: seq<Entry>, f: SortField, o: Order): (r: seq<Entry>)
    requires Sorted(t, f, o)
    ensures Sorted(r, f, o)
    ensures multiset(r) == multiset([x] + t)
    ensures |r| == |t| + 1
  {
    if t == [] then [x]
    else if Before(o, Key(x, f), Key(t[0], f)) then
      PrependSorted(x, t, f, o);
      [x] + t
    else
      var t' := t[1..];
      var r' := Insert(x, t', f, o);
      assert t == [t[0]] + t';
      assert Leads(t[0], t', f, o) by {
        forall i | 0 <= i < |t'| ensures Before(o, Key(t[0], f), Key(t'[i], f)) {
          assert t'[i] == t[i + 1];
        }
      }
      LeadsPermutation(t[0], x, t', r', f, o);
      PrependSorted(t[0], r', f, o);
      [t[0]] + r'
  }

  /** Moving an entry past one with a different key changes no key's
      entry list. */
  lemma SwapDistinct(x: Entry, y: Entry, r: seq<Entry>, t: seq<Entry>, f: SortField, k: real)
    requires Key(x, f) != Key(y, f)
    requires WithKey(r, f, k) == WithKey([x] + t, f, k)
    ensures WithKey([y] + r, f, k) == WithKey([x] + ([y] + t), f, k)
  {
  }

  lemma {:induction false} InsertStable(x: Entry, t: seq<Entry>, f: SortField, o: Order, k: real)
    requires Sorted(t, f, o)
    ensures WithKey(Insert(x, t, f, o), f, k) == WithKey([x] + t, f, k)
    decreases |t|
  {
    if t != [] && !Before(o, Key(x, f), Key(t[0], f)) {
      var t' := t[1..];
      assert t == [t[0]] + t';
      InsertStable(x, t', f, o, k);
      SwapDistinct(x, t[0], Insert(x, t', f, o), t', f, k);
    }
  }

  /** Stable insertion sort in the requested direction. */
  function SortEntries(s: seq<Entry>, f: SortField, o: Order): (r: seq<Entry>)
    ensures Sorted(r, f, o)
    ensures multiset(r) == multiset(s)
    ensures |r| == |s|
  {
    if s == [] then []
    else
      assert s == [s[0]] + s[1..];
      Insert(s[0], SortEntries(s[1..], f, o), f, o)
  }

  lemma {:induction false} SortStableAt(s: seq<Entry>, f: SortField, o: Order, k: real)
    ensures WithKey(SortEntries(s, f, o), f, k) == WithKey(s, f, k)
    decreases |s|
  {
    if s != [] {
      var t := SortEntries(s[1..], f, o);
      assert s == [s[0]] + s[1..];
      assert SortEntries(s, f, o) == Insert(s[0], t, f, o);
      SortStableAt(s[1..], f, o, k);
      InsertStable(s[0], t, f, o, k);
      WithKeyCons(s[0], t, f, k);
      WithKeyCons(s[0], s[1..], f, k);
    }
  }

  /** Sorting keeps, for every key value, the entries carrying it in their
      original order. */
  lemma SortStable(s: seq<Entry>, f: SortField, o: Order)
    ensures StableFor(SortEntries(s, f, o), s, f)
  {
    forall k {
      SortStableAt(s, f, o, k);
    }
  }

  /** A duplicate-free listing of the store's ids: the order in which the
      patients document holds them. */
  ghost predicate Enumerates(keys: seq<string>, s: Store) {
    && (forall i :: 0 <= i < |keys| ==> keys[i] in s)
    && (forall id :: id in s ==> id in keys)
    && (forall i, j :: 0 <= i < j < |keys| ==> keys[i] != keys[j])
  }

  /** The stored entries, in document order. */
  function ValuesInOrder(s: Store, keys: seq<string>): (r: seq<Entry>)
    requires forall i :: 0 <= i < |keys| ==> keys[i] in s
    ensures |r| == |keys|
    ensures forall i :: 0 <= i < |keys| ==> r[i] == s[keys[i]]
  {
    seq(|keys|, i requires 0 <= i < |keys| => s[keys[i]])
  }

  /** The sort query over the store whose ids, in document order, are
      `keys`. The field is checked before the order. */
  function SortPatients(s: Store, keys: seq<string>, sortBy: string, order: string)
    : (r: Result<seq<Entry>, Error>)
    requires Enumerates(keys, s)
    ensures sortBy !in {"height", "weight", "bmi"} ==> r == Failure(BadArgument("sort_by"))
    ensures sortBy in {"height", "weight", "bmi"} && order !in {"asc", "desc"} ==>
      r == Failure(BadArgument("order"))
    ensures r.Success? <==> sortBy in {"height", "weight", "bmi"} && order in {"asc", "desc"}
    ensures r.Success? ==>
      var f, o := ParseField(sortBy).value, ParseOrder(order).value;
      && |r.value| == |s|
      && multiset(r.value) == multiset(ValuesInOrder(s, keys))
      && Sorted(r.value, f, o)
  {
    match ParseField(sortBy)
    case None => Failure(BadArgument("sort_by"))
    case Some(f) =>
      match ParseOrder(order)
      case None => Failure(BadArgument("order"))
      case Some(o) =>
        EnumerationSize(keys, s);
        Success(SortEntries(ValuesInOrder(s, keys), f, o))
  }

  lemma EnumerationSize(keys: seq<string>, s: Store)
    requires Enumerates(keys, s)
    ensures |keys| == |s|
  {
    var ks := set i | 0 <= i < |keys| :: keys[i];
    assert ks == s.Keys;
    SeqSetSize(keys);
  }

  lemma {:induction false} SeqSetSize(keys: seq<string>)
    requires forall i, j :: 0 <= i < j < |keys| ==> keys[i] != keys[j]
    ensures |set i | 0 <= i < |keys| :: keys[i]| == |keys|
    decreases |keys|
  {
    if keys != [] {
      var rest := keys[1..];
      SeqSetSize(rest);
      var a := set i | 0 <= i < |keys| :: keys[i];
      var b := set i | 0 <= i < |rest| :: rest[i];
      assert a == {keys[0]} + b;
      assert keys[0] !in b;
    }
  }

  /** On a successful sort, entries with equal keys come out in document
      order, in either direction. */
  lemma SortPatientsStable(s: Store, keys: seq<string>, sortBy: string, order: string)
    requires Enumerates(keys, s)
    requires SortPatients(s, keys, sortBy, order).Success?
    ensures StableFor(SortPatients(s, keys, sortBy, order).value,
                      ValuesInOrder(s, keys), ParseField(sortBy).value)
  {
    SortStable(ValuesInOrder(s, keys), ParseField(sortBy).value, ParseOrder(order).value);
  }

  /** Heights 1.5, 1.8, 1.6 sort to 1.5, 1.6, 1.8 ascending. */
  lemma SortHeightsAscending(a: Entry, b: Entry, c: Entry)
    requires a.height == Some(1.5) && b.height == Some(1.8) && c.height == Some(1.6)
    ensures SortEntries([a, b, c], ByHeight, Asc) == [a, c, b]
  {
    assert [a, b, c][1..] == [b, c] && [b, c][1..] == [c] && [c][1..] == [];
    var bc := SortEntries([b, c], ByHeight, Asc);
    assert bc == Insert(b, [c], ByHeight, Asc);
    assert bc == [c, b];
    assert Before(Asc, Key(a, ByHeight), Key(bc[0], ByHeight));
    assert SortEntries([a, b, c], ByHeight, Asc) == Insert(a, bc, ByHeight, Asc);
  }

  /** The same heights sort to 1.8, 1.6, 1.5 descending. */
  lemma SortHeightsDescending(a: Entry, b: Entry, c: Entry)
    requires a.height == Some(1.5) && b.height == Some(1.8) && c.height == Some(1.6)
    ensures SortEntries([a, b, c], ByHeight, Desc) == [b, c, a]
  {
    assert [a, b, c][1..] == [b, c] && [b, c][1..] == [c] && [c][1..] == [];
    assert SortEntries([b, c], ByHeight, Desc) == [b, c];
    assert [b, c][1..] == [c];
    var ac := Insert(a, [c], ByHeight, Desc);
    assert ac == [c, a];
    assert Insert(a, [b, c], ByHeight, Desc) == [b] + ac;
  }
}

/** JavaScript objects used as records and dictionaries, as the list of their own
    properties in enumeration order. Assigning to a property that exists replaces its
    value where it stands; assigning to a new one appends it. */
module JsObject {
  import opened Wrappers

  type Entries<V> = seq<(string, V)>

  /** The values the scrapers store in records. Numbers are integers here; a value the
      program never inspects (a nested object, a fraction) is `Other`. */
  datatype Value = Undefined | Null | Bool(b: bool) | Num(n: int) | Str(s: string)
                 | StrList(items: seq<string>) | Other {

    /** `v ?? d`. */
    function OrElse(d: Value): Value {
      if Undefined? || Null? then d else this
    }
  }

  /** `Object.keys(o)`. */
  function Keys<V>(o: Entries<V>): (ks: seq<string>)
    ensures |ks| == |o|
    ensures forall i :: 0 <= i < |o| ==> ks[i] == o[i].0
  {
    if o == [] then [] else [o[0].0] + Keys(o[1..])
  }

  /** No key occurs twice: what every object the program builds satisfies. */
  predicate DistinctKeys<V>(o: Entries<V>) {
    forall i, j :: 0 <= i < j < |o| ==> o[i].0 != o[j].0
  }

  predicate HasKey<V>(o: Entries<V>, k: string) {
    exists i :: 0 <= i < |o| && o[i].0 == k
  }

  /** `o[k]`, `None` standing for `undefined`. */
  function Get<V>(o: Entries<V>, k: string): (r: Option<V>)
    ensures r.Some? <==> HasKey(o, k)
    ensures r.Some? ==> exists i :: 0 <= i < |o| && o[i] == (k, r.value)
  {
    if o == [] then None
    else if o[0].0 == k then Some(o[0].1)
    else
      var r := Get(o[1..], k);
      assert forall i :: 1 <= i < |o| ==> o[i] == o[1..][i - 1];
      assert HasKey(o[1..], k) ==> HasKey(o, k);
      r
  }

  /** Past a first entry with another key, the key is present exactly when it is in the rest. */
  lemma HasKeyTail<V>(o: Entries<V>, k: string)
    requires o != [] && o[0].0 != k
    ensures HasKey(o, k) <==> HasKey(o[1..], k)
  {
    if HasKey(o, k) {
      var i :| 0 <= i < |o| && o[i].0 == k;
      assert o[1..][i - 1].0 == k;
    }
    if HasKey(o[1..], k) {
      var i :| 0 <= i < |o| - 1 && o[1..][i].0 == k;
      assert o[i + 1].0 == k;
    }
  }

  /** `o[k] = v`. */
  function Assign<V>(o: Entries<V>, k: string, v: V): (r: Entries<V>)
    ensures HasKey(o, k) ==> |r| == |o|
    ensures !HasKey(o, k) ==> r == o + [(k, v)]
    ensures forall i :: 0 <= i < |o| ==> r[i].0 == o[i].0
    ensures DistinctKeys(o) ==> forall i :: 0 <= i < |o| ==> r[i] == (if o[i].0 == k then (k, v) else o[i])
  {
    if o == [] then [(k, v)]
    else if o[0].0 == k then [(k, v)] + o[1..]
    else
      var rest := Assign(o[1..], k, v);
      HasKeyTail(o, k);
      assert forall i :: 1 <= i < |o| ==> o[i] == o[1..][i - 1];
      [o[0]] + rest
  }

  /** Assigning keeps the keys distinct. */
  lemma AssignDistinct<V>(o: Entries<V>, k: string, v: V)
    requires DistinctKeys(o)
    ensures DistinctKeys(Assign(o, k, v))
  {
    var r := Assign(o, k, v);
    if !HasKey(o, k) {
      forall i | 0 <= i < |o| ensures r[i].0 != k {
        assert r[i].0 == o[i].0;
      }
    }
  }

  /** After `o[k] = v`, reading `k` gives `v`. */
  lemma {:induction false} AssignGetSame<V>(o: Entries<V>, k: string, v: V)
    ensures Get(Assign(o, k, v), k) == Some(v)
  {
    if o != [] && o[0].0 != k {
      AssignGetSame(o[1..], k, v);
      assert Assign(o, k, v) == [o[0]] + Assign(o[1..], k, v);
    }
  }

  /** After `o[k] = v`, every other key reads as before. */
  lemma {:induction false} AssignGetOther<V>(o: Entries<V>, k: string, v: V, k': string)
    requires k' != k
    ensures Get(Assign(o, k, v), k') == Get(o, k')
  {
    if o == [] {
      assert Assign(o, k, v) == [(k, v)];
    } else if o[0].0 == k {
      assert Assign(o, k, v) == [(k, v)] + o[1..];
      assert Assign(o, k, v)[1..] == o[1..];
    } else if o[0].0 != k' {
      AssignGetOther(o[1..], k, v, k');
      assert Assign(o, k, v) == [o[0]] + Assign(o[1..], k, v);
    }
  }

  /** In an object without repeated keys, `Get` finds the one entry with that key. */
  lemma GetUnique<V>(o: Entries<V>, k: string)
    requires DistinctKeys(o)
    ensures forall i :: 0 <= i < |o| && o[i].0 == k ==> Get(o, k) == Some(o[i].1)
  {
    if o != [] && o[0].0 != k {
      GetUnique(o[1..], k);
      assert forall i :: 1 <= i < |o| ==> o[i] == o[1..][i - 1];
    }
  }

  /** A key is among `Object.keys(o)` exactly when `o` has it. */
  lemma InKeys<V>(o: Entries<V>, k: string)
    ensures k in Keys(o) <==> HasKey(o, k)
  {
    var ks := Keys(o);
    if k in ks {
      var i :| 0 <= i < |ks| && ks[i] == k;
      assert o[i].0 == k;
    }
    if HasKey(o, k) {
      var i :| 0 <= i < |o| && o[i].0 == k;
      assert ks[i] == k;
    }
  }

  /** The keys after `o[k] = v`: those of `o`, and `k` at the end when it is new. */
  lemma AssignKeys<V>(o: Entries<V>, k: string, v: V)
    ensures Keys(Assign(o, k, v)) == if k in Keys(o) then Keys(o) else Keys(o) + [k]
  {
    InKeys(o, k);
    if HasKey(o, k) {
      AssignKeysPresent(o, k, v);
    } else {
      AssignKeysAbsent(o, k, v);
    }
  }

  lemma AssignKeysPresent<V>(o: Entries<V>, k: string, v: V)
    requires HasKey(o, k)
    ensures Keys(Assign(o, k, v)) == Keys(o)
  {
    var r := Assign(o, k, v);
    assert forall i :: 0 <= i < |r| ==> Keys(r)[i] == Keys(o)[i];
  }

  lemma AssignKeysAbsent<V>(o: Entries<V>, k: string, v: V)
    requires !HasKey(o, k)
    ensures Keys(Assign(o, k, v)) == Keys(o) + [k]
  {
    var r := Assign(o, k, v);
    assert r == o + [(k, v)];
    assert |Keys(r)| == |Keys(o) + [k]|;
    assert forall i :: 0 <= i < |r| ==> Keys(r)[i] == (Keys(o) + [k])[i];
  }

  /** `Object.fromEntries(Object.entries(o).map(([k, v]) => [k, f(v)]))`. */
  function MapValues<V, W>(o: Entries<V>, f: V -> W): (r: Entries<W>)
    ensures |r| == |o|
    ensures forall i :: 0 <= i < |o| ==> r[i] == (o[i].0, f(o[i].1))
  {
    if o == [] then [] else [(o[0].0, f(o[0].1))] + MapValues(o[1..], f)
  }

  /** Mapping the values after `o[k] = v` is assigning the mapped value to the mapped
      object: two objects filled by the same assignments have the same keys. */
  lemma {:induction false} MapValuesAssign<V, W>(o: Entries<V>, k: string, v: V, f: V -> W)
    ensures MapValues(Assign(o, k, v), f) == Assign(MapValues(o, f), k, f(v))
  {
    var m := MapValues(o, f);
    if o == [] {
    } else if o[0].0 == k {
      assert Assign(o, k, v) == [(k, v)] + o[1..];
      assert m[1..] == MapValues(o[1..], f);
      assert Assign(m, k, f(v)) == [(k, f(v))] + m[1..];
    } else {
      MapValuesAssign(o[1..], k, v, f);
      assert Assign(o, k, v) == [o[0]] + Assign(o[1..], k, v);
      assert m[1..] == MapValues(o[1..], f);
      assert Assign(m, k, f(v)) == [m[0]] + Assign(m[1..], k, f(v));
    }
  }

  /** Mapping the values keeps the keys. */
  lemma MapValuesKeys<V, W>(o: Entries<V>, f: V -> W)
    ensures Keys(MapValues(o, f)) == Keys(o)
  {
    var m := MapValues(o, f);
    assert forall i :: 0 <= i < |o| ==> Keys(m)[i] == Keys(o)[i];
  }

  /** The sum of `w` over the values of `o`. */
  function Weight<V>(o: Entries<V>, w: V -> nat): nat {
    if o == [] then 0 else w(o[0].1) + Weight(o[1..], w)
  }

  /** Appending an entry adds its weight. */
  lemma {:induction false} WeightSnoc<V>(o: Entries<V>, k: string, v: V, w: V -> nat)
    ensures Weight(o + [(k, v)], w) == Weight(o, w) + w(v)
  {
    if o != [] {
      assert (o + [(k, v)])[1..] == o[1..] + [(k, v)];
      WeightSnoc(o[1..], k, v, w);
    }
  }

  /** The weight of an object is that of all but its last entry plus the last one's. */
  lemma WeightLast<V>(o: Entries<V>, w: V -> nat)
    requires o != []
    ensures Weight(o, w) == Weight(o[..|o| - 1], w) + w(o[|o| - 1].1)
  {
    var n := |o| - 1;
    assert o[..n] + [(o[n].0, o[n].1)] == o;
    WeightSnoc(o[..n], o[n].0, o[n].1, w);
  }

  /** `o[k] = v` adds at most the weight of `v`, and exactly that when `k` is new. */
  lemma {:induction false} AssignWeight<V>(o: Entries<V>, k: string, v: V, w: V -> nat)
    ensures Weight(Assign(o, k, v), w) <= Weight(o, w) + w(v)
    ensures !HasKey(o, k) ==> Weight(Assign(o, k, v), w) == Weight(o, w) + w(v)
  {
    if !HasKey(o, k) {
      WeightSnoc(o, k, v, w);
    } else if o[0].0 == k {
      assert Assign(o, k, v) == [(k, v)] + o[1..];
      assert ([(k, v)] + o[1..])[1..] == o[1..];
    } else {
      HasKeyTail(o, k);
      AssignWeight(o[1..], k, v, w);
      assert Assign(o, k, v) == [o[0]] + Assign(o[1..], k, v);
      assert ([o[0]] + Assign(o[1..], k, v))[1..] == Assign(o[1..], k, v);
    }
  }
}

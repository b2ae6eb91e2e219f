/**
 * A plain JavaScript object with string keys, as the voting component uses
 * one for its `votes` allocation and for the ballot it submits.
 *
 * An object is the list of its own properties in insertion order: that is
 * the order in which `Object.keys` and `Object.values` report them, and
 * assigning to an existing key updates that property where it stands while
 * assigning to a new key appends it.
 */
module JsObject {
  import opened Wrappers

  datatype Property<V> = Property(key: string, value: V)

  type Obj<V> = seq<Property<V>>

  /** The keys of o, in insertion order. */
  function Keys<V>(o: Obj<V>): seq<string>
  {
    seq(|o|, i requires 0 <= i < |o| => o[i].key)
  }

  /** No key occurs twice: every JavaScript object has this shape. */
  predicate WellFormed<V>(o: Obj<V>)
  {
    forall i, j :: 0 <= i < j < |o| ==> o[i].key != o[j].key
  }

  /** The value of key k, with `None` for a key the object does not have. */
  function Get<V>(o: Obj<V>, k: string): (r: Option<V>)
    ensures r.None? <==> k !in Keys(o)
    ensures r.Some? ==> Property(k, r.value) in o
  {
    if o == [] then None
    else
      assert [o[0]] + o[1..] == o;
      KeysCons(o[0], o[1..]);
      if o[0].key == k then Some(o[0].value) else Get(o[1..], k)
  }

  /** Assigning v to key k. */
  function Put<V>(o: Obj<V>, k: string, v: V): (r: Obj<V>)
    ensures forall k' :: Get(r, k') == if k' == k then Some(v) else Get(o, k')
    ensures k in Keys(o) ==> Keys(r) == Keys(o)
    ensures k !in Keys(o) ==> r == o + [Property(k, v)]
    ensures WellFormed(o) ==> WellFormed(r)
  {
    if o == [] then
      GetCons(Property(k, v), []);
      [Property(k, v)]
    else
      var head, tail := o[0], o[1..];
      assert [head] + tail == o;
      KeysCons(head, tail);
      GetCons(head, tail);
      WellFormedCons(head, tail);
      if head.key == k then
        KeysCons(Property(k, v), tail);
        GetCons(Property(k, v), tail);
        WellFormedCons(Property(k, v), tail);
        [Property(k, v)] + tail
      else
        var rest := Put(tail, k, v);
        KeysCons(head, rest);
        GetCons(head, rest);
        WellFormedCons(head, rest);
        [head] + rest
  }

  lemma GetCons<V>(p: Property<V>, o: Obj<V>)
    ensures forall k :: Get([p] + o, k) == if p.key == k then Some(p.value) else Get(o, k)
  {
    assert ([p] + o)[1..] == o;
  }

  lemma KeysCons<V>(p: Property<V>, o: Obj<V>)
    ensures Keys([p] + o) == [p.key] + Keys(o)
  {
  }

  lemma WellFormedCons<V>(p: Property<V>, o: Obj<V>)
    ensures WellFormed([p] + o) <==> p.key !in Keys(o) && WellFormed(o)
  {
    var po := [p] + o;
    if WellFormed(po) {
      forall i, j | 0 <= i < j < |o| ensures o[i].key != o[j].key {
        assert po[i + 1] == o[i] && po[j + 1] == o[j];
      }
      forall i | 0 <= i < |o| ensures Keys(o)[i] != p.key {
        assert po[i + 1] == o[i] && po[0] == p;
        assert po[0].key != po[i + 1].key;
      }
    }
    if p.key !in Keys(o) && WellFormed(o) {
      forall i, j | 0 <= i < j < |po| ensures po[i].key != po[j].key {
        if i == 0 {
          assert Keys(o)[j - 1] == po[j].key;
        } else {
          assert po[i] == o[i - 1] && po[j] == o[j - 1];
        }
      }
    }
  }

  /** In a well-formed object, looking up the key of the i-th property finds that property's value. */
  lemma {:induction false} GetAt<V>(o: Obj<V>, i: nat)
    requires WellFormed(o) && i < |o|
    ensures Get(o, o[i].key) == Some(o[i].value)
  {
    if i > 0 {
      assert o[0].key != o[i].key;
      assert o[1..][i - 1] == o[i];
      GetAt(o[1..], i - 1);
    }
  }
}

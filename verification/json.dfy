/**
 * Values produced by `JSON.parse`, and what an object spread (`{ ...v }`)
 * copies out of such a value.
 */
module Json {

  datatype Value =
    | Null
    | Bool(b: bool)
    | Number(n: real)
    | Str(s: string)
    | Arr(items: seq<Value>)
    | Obj(members: map<string, Value>)

  /** The property key of array or string index `n`: its decimal digits. */
  function IndexKey(n: nat): (k: string)
    ensures 1 <= |k|
    ensures n >= 10 ==> 2 <= |k|
    ensures forall i :: 0 <= i < |k| ==> '0' <= k[i] <= '9'
  {
    if n < 10 then [('0' as int + n) as char]
    else IndexKey(n / 10) + [('0' as int + n % 10) as char]
  }

  /** Distinct indices have distinct keys, so spreading an array or a string
      loses no element. */
  lemma {:induction false} IndexKeyInjective(m: nat, n: nat)
    ensures IndexKey(m) == IndexKey(n) ==> m == n
    decreases m + n
  {
    if m >= 10 && n >= 10 {
      IndexKeyInjective(m / 10, n / 10);
      var km, kn := IndexKey(m), IndexKey(n);
      assert km[..|km| - 1] == IndexKey(m / 10);
      assert kn[..|kn| - 1] == IndexKey(n / 10);
      if km == kn {
        assert km[|km| - 1] == kn[|kn| - 1];
      }
    }
  }

  /** The keys of the first `n` indices. */
  function IndexKeys(n: nat): set<string> {
    set i: nat | i < n :: IndexKey(i)
  }

  /** Each element of `a` under the key of its index. */
  function Indexed(a: seq<Value>): (m: map<string, Value>)
    ensures m.Keys == IndexKeys(|a|)
    decreases |a|
  {
    if a == [] then map[]
    else
      var n := |a| - 1;
      assert IndexKeys(n + 1) == IndexKeys(n) + {IndexKey(n)};
      Indexed(a[..n])[IndexKey(n) := a[n]]
  }

  lemma {:induction false} IndexedLookup(a: seq<Value>, i: nat)
    requires i < |a|
    ensures IndexKey(i) in Indexed(a) && Indexed(a)[IndexKey(i)] == a[i]
    decreases |a|
  {
    var n := |a| - 1;
    if i < n {
      IndexKeyInjective(i, n);
      IndexedLookup(a[..n], i);
    }
  }

  /** The own enumerable properties that `{ ...v }` copies: an object's
      members; for a string, each character under its index; for an array,
      each element under its index; nothing for null, booleans and numbers. */
  function SpreadEntries(v: Value): (entries: map<string, Value>)
    ensures v.Obj? ==> entries == v.members
    ensures v.Null? || v.Bool? || v.Number? ==> entries == map[]
    ensures v.Str? ==> forall i :: 0 <= i < |v.s| ==>
      IndexKey(i) in entries && entries[IndexKey(i)] == Str([v.s[i]])
    ensures v.Arr? ==> forall i :: 0 <= i < |v.items| ==>
      IndexKey(i) in entries && entries[IndexKey(i)] == v.items[i]
    ensures v.Str? ==> entries.Keys == IndexKeys(|v.s|)
    ensures v.Arr? ==> entries.Keys == IndexKeys(|v.items|)
  {
    match v
    case Obj(m) => m
    case Str(s) =>
      var chars := seq(|s|, i requires 0 <= i < |s| => Str([s[i]]));
      assert forall i: nat :: i < |s| ==> IndexKey(i) in Indexed(chars) && Indexed(chars)[IndexKey(i)] == Str([s[i]]) by {
        forall i: nat | i < |s| { IndexedLookup(chars, i); }
      }
      Indexed(chars)
    case Arr(a) =>
      assert forall i: nat :: i < |a| ==> IndexKey(i) in Indexed(a) && Indexed(a)[IndexKey(i)] == a[i] by {
        forall i: nat | i < |a| { IndexedLookup(a, i); }
      }
      Indexed(a)
    case _ => map[]
  }
}

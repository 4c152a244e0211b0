/** Byte strings and the few sequence facts that every component shares. */
module Bytes {

  type Byte = x: int | 0 <= x < 256
  type ByteSeq = seq<Byte>

  datatype Option<+T> = None | Some(value: T)

  function Flatten<T>(parts: seq<seq<T>>): seq<T> {
    if parts == [] then [] else parts[0] + Flatten(parts[1..])
  }

  lemma Regroup<T>(a: seq<T>, b: seq<T>, c: seq<T>)
    ensures a + (b + c) == a + b + c
  {
  }

  lemma {:induction false} FlattenConcat<T>(a: seq<seq<T>>, b: seq<seq<T>>)
    ensures Flatten(a + b) == Flatten(a) + Flatten(b)
  {
    if a == [] {
      assert a + b == b;
    } else {
      FlattenConcat(a[1..], b);
      assert (a + b)[1..] == a[1..] + b;
      Regroup(a[0], Flatten(a[1..]), Flatten(b));
    }
  }

  lemma FlattenSnoc<T>(a: seq<seq<T>>, x: seq<T>)
    ensures Flatten(a + [x]) == Flatten(a) + x
  {
    FlattenConcat(a, [x]);
    assert Flatten([x]) == x + Flatten([][..]) == x;
  }

  lemma FlattenHead<T>(a: seq<seq<T>>, rest: seq<T>)
    requires a != []
    ensures Flatten(a) + rest == a[0] + (Flatten(a[1..]) + rest)
  {
    Regroup(a[0], Flatten(a[1..]), rest);
  }

  lemma ConsAppend<T>(a: seq<T>, b: seq<T>)
    requires a != []
    ensures a + b == [a[0]] + (a[1..] + b)
  {
  }

  function Reverse<T>(s: seq<T>): (r: seq<T>)
    ensures |r| == |s|
    ensures forall i :: 0 <= i < |s| ==> r[i] == s[|s| - 1 - i]
  {
    if s == [] then [] else Reverse(s[1..]) + [s[0]]
  }

  lemma ReverseTwice<T>(s: seq<T>)
    ensures Reverse(Reverse(s)) == s
  {
    forall i | 0 <= i < |s| ensures Reverse(Reverse(s))[i] == s[i] {
      var r := Reverse(s);
      assert Reverse(r)[i] == r[|s| - 1 - i];
    }
  }
}

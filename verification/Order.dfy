/** The order in which the database lists keys: lexicographic on characters. */
module Order {

  predicate Less(a: string, b: string)
  {
    b != [] && (a == [] || a[0] < b[0] || (a[0] == b[0] && Less(a[1..], b[1..])))
  }

  lemma {:induction false} LessTotal(a: string, b: string)
    ensures a != b ==> Less(a, b) || Less(b, a)
    ensures !(Less(a, b) && Less(b, a))
  {
    if a != [] && b != [] && a[0] == b[0] {
      LessTotal(a[1..], b[1..]);
      assert a == [a[0]] + a[1..] && b == [b[0]] + b[1..];
    }
  }

  lemma {:induction false} LessTransitive(a: string, b: string, c: string)
    requires Less(a, b) && Less(b, c)
    ensures Less(a, c)
  {
    if a != [] && a[0] == b[0] == c[0] {
      LessTransitive(a[1..], b[1..], c[1..]);
    }
  }

  /** Strictly increasing: sorted and without repetition. */
  predicate Sorted(keys: seq<string>)
  {
    forall i, j | 0 <= i < j < |keys| :: Less(keys[i], keys[j])
  }

  function Elements<T(==)>(s: seq<T>): set<T>
  {
    set x | x in s
  }

  function Insert(keys: seq<string>, x: string): (r: seq<string>)
    requires Sorted(keys) && x !in keys
    ensures Elements(r) == Elements(keys) + {x}
    ensures Sorted(r)
    ensures |r| == |keys| + 1
  {
    if keys == [] then [x]
    else if Less(x, keys[0]) then
      assert forall j | 0 < j < |keys| :: Less(x, keys[j]) by {
        forall j | 0 < j < |keys| ensures Less(x, keys[j]) { LessTransitive(x, keys[0], keys[j]); }
      }
      [x] + keys
    else
      var rest := Insert(keys[1..], x);
      assert Less(keys[0], x) by { LessTotal(x, keys[0]); }
      assert keys == [keys[0]] + keys[1..];
      assert forall k | 0 <= k < |rest| :: Less(keys[0], rest[k]) by {
        forall k | 0 <= k < |rest| ensures Less(keys[0], rest[k]) {
          assert rest[k] in Elements(keys[1..]) + {x};
        }
      }
      [keys[0]] + rest
  }

  /** `ORDER BY key` over the keys of a namespace. */
  method SortKeys(keys: set<string>) returns (sorted: seq<string>)
    ensures Sorted(sorted) && Elements(sorted) == keys && |sorted| == |keys|
  {
    sorted := [];
    var rest := keys;
    while rest != {}
      invariant rest <= keys
      invariant Sorted(sorted) && Elements(sorted) == keys - rest
      invariant |sorted| + |rest| == |keys|
    {
      var x :| x in rest;
      assert x !in Elements(sorted);
      sorted := Insert(sorted, x);
      rest := rest - {x};
    }
  }
}

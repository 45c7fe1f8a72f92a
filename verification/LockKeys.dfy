/**
  The keys of a multilock (`NewMultilock`, `unique`): duplicates are dropped and the rest sorted, so two
  multilocks over the same names acquire their channels in the same order.
 */
module LockKeys {
  import opened Options

  /** The order of `sort.Strings`: lexicographic, a proper prefix first. */
  predicate Less(a: string, b: string) {
    if a == [] then b != []
    else b != [] && (a[0] < b[0] || (a[0] == b[0] && Less(a[1..], b[1..])))
  }

  lemma {:induction false} LessIrreflexive(a: string)
    ensures !Less(a, a)
  {
    if a != [] {
      LessIrreflexive(a[1..]);
    }
  }

  lemma {:induction false} LessTransitive(a: string, b: string, c: string)
    requires Less(a, b) && Less(b, c)
    ensures Less(a, c)
  {
    if a != [] && a[0] == b[0] && b[0] == c[0] {
      LessTransitive(a[1..], b[1..], c[1..]);
    }
  }

  lemma {:induction false} LessTotal(a: string, b: string)
    ensures a == b || Less(a, b) || Less(b, a)
  {
    if a != [] && b != [] {
      LessTotal(a[1..], b[1..]);
      assert a == [a[0]] + a[1..] && b == [b[0]] + b[1..];
    }
  }

  /** Each key is below all later ones. */
  predicate Ascending(keys: seq<string>) {
    forall i, j {:trigger Less(keys[i], keys[j])} :: 0 <= i < j < |keys| ==> Less(keys[i], keys[j])
  }

  predicate Distinct(keys: seq<string>) {
    forall i, j {:trigger keys[i], keys[j]} :: 0 <= i < j < |keys| ==> keys[i] != keys[j]
  }

  lemma AscendingIsDistinct(keys: seq<string>)
    requires Ascending(keys)
    ensures Distinct(keys)
  {
    forall i, j | 0 <= i < j < |keys| ensures keys[i] != keys[j] {
      assert Less(keys[i], keys[j]);
      LessIrreflexive(keys[i]);
    }
  }

  /** The names of `arr` at their first occurrences. */
  function Firsts(arr: seq<string>): (r: seq<string>)
    ensures Distinct(r)
    ensures forall x :: x in r <==> x in arr
  {
    if arr == [] then []
    else
      var n := |arr| - 1;
      assert arr == arr[..n] + [arr[n]];
      if arr[n] in arr[..n] then Firsts(arr[..n]) else Firsts(arr[..n]) + [arr[n]]
  }

  lemma FirstsStep(arr: seq<string>, i: nat)
    requires i < |arr|
    ensures Firsts(arr[..i + 1]) == if arr[i] in arr[..i] then Firsts(arr[..i]) else Firsts(arr[..i]) + [arr[i]]
  {
    assert arr[..i + 1][..i] == arr[..i];
  }

  /** `unique`: the early return for short slices and the loop over the `found` map. */
  method Unique(arr: seq<string>) returns (result: seq<string>)
    ensures result == Firsts(arr)
  {
    if |arr| <= 1 {
      assert |arr| == 1 ==> arr == [] + [arr[0]] && arr[..0] == [];
      return arr;
    }
    var found: map<string, bool> := map[];
    result := [];
    for i := 0 to |arr|
      invariant result == Firsts(arr[..i])
      invariant forall x :: x in found <==> x in arr[..i]
      invariant forall x :: x in found ==> found[x]
    {
      FirstsStep(arr, i);
      assert arr[..i + 1] == arr[..i] + [arr[i]];
      if !(arr[i] in found && found[arr[i]]) {
        found := found[arr[i] := true];
        result := result + [arr[i]];
      }
    }
    assert arr[..|arr|] == arr;
  }

  /** Insertion into an ascending list, the specification of the library sort. */
  function Insert(x: string, keys: seq<string>): seq<string> {
    if keys == [] then [x]
    else if Less(x, keys[0]) then [x] + keys
    else [keys[0]] + Insert(x, keys[1..])
  }

  function Sorted(keys: seq<string>): seq<string> {
    if keys == [] then [] else Insert(keys[0], Sorted(keys[1..]))
  }

  lemma {:induction false} InsertHas(x: string, keys: seq<string>, y: string)
    ensures y in Insert(x, keys) <==> y == x || y in keys
  {
    if keys != [] {
      InsertHas(x, keys[1..], y);
      assert y in keys <==> y == keys[0] || y in keys[1..];
    }
  }

  lemma {:induction false} InsertAscending(x: string, keys: seq<string>)
    requires Ascending(keys) && x !in keys
    ensures Ascending(Insert(x, keys))
  {
    if keys != [] {
      var rest := keys[1..];
      if Less(x, keys[0]) {
        PrependAscending(x, keys);
      } else {
        LessTotal(x, keys[0]);
        forall i, j | 0 <= i < j < |rest| ensures Less(rest[i], rest[j]) {
          assert Less(keys[i + 1], keys[j + 1]);
        }
        InsertAscending(x, rest);
        forall y | y in Insert(x, rest) ensures Less(keys[0], y) {
          InsertHas(x, rest, y);
          if y != x {
            var i :| 0 <= i < |rest| && rest[i] == y;
            assert Less(keys[0], keys[i + 1]);
          }
        }
        ConsAscending(keys[0], Insert(x, rest));
      }
    }
  }

  lemma PrependAscending(x: string, keys: seq<string>)
    requires Ascending(keys) && keys != [] && Less(x, keys[0])
    ensures Ascending([x] + keys)
  {
    forall y | y in keys ensures Less(x, y) {
      var i :| 0 <= i < |keys| && keys[i] == y;
      if i > 0 {
        assert Less(keys[0], keys[i]);
        LessTransitive(x, keys[0], y);
      }
    }
    ConsAscending(x, keys);
  }

  lemma ConsAscending(x: string, keys: seq<string>)
    requires Ascending(keys) && forall y :: y in keys ==> Less(x, y)
    ensures Ascending([x] + keys)
  {
    var r := [x] + keys;
    forall i, j | 0 <= i < j < |r| ensures Less(r[i], r[j]) {
      if i > 0 {
        assert Less(keys[i - 1], keys[j - 1]);
      }
    }
  }

  lemma {:induction false} SortedFacts(keys: seq<string>)
    requires Distinct(keys)
    ensures Ascending(Sorted(keys))
    ensures forall y :: y in Sorted(keys) <==> y in keys
  {
    if keys != [] {
      SortedFacts(keys[1..]);
      InsertAscending(keys[0], Sorted(keys[1..]));
      forall y ensures y in Sorted(keys) <==> y in keys {
        InsertHas(keys[0], Sorted(keys[1..]), y);
        assert y in keys <==> y == keys[0] || y in keys[1..];
      }
    }
  }

  /** The keys of a new multilock. */
  function KeysFor(names: seq<string>): (keys: seq<string>)
    ensures Ascending(keys)
    ensures forall y :: y in keys <==> y in names
    ensures keys == [] <==> names == []
  {
    SortedFacts(Firsts(names));
    var keys := Sorted(Firsts(names));
    assert names != [] ==> names[0] in keys;
    assert keys != [] ==> keys[0] in names;
    keys
  }

  method NewMultilock(names: seq<string>) returns (keys: Option<seq<string>>)
    ensures keys == if names == [] then None else Some(KeysFor(names))
  {
    if |names| == 0 {
      return None;
    }
    var firsts := Unique(names);
    return Some(Sorted(firsts));
  }

  /** Ascending lists are determined by their elements. */
  lemma {:induction false} AscendingIsCanonical(a: seq<string>, b: seq<string>)
    requires Ascending(a) && Ascending(b) && forall y :: y in a <==> y in b
    ensures a == b
  {
    assert b != [] ==> b[0] in b;
    if a != [] {
      assert a[0] in b;
      HeadsAgree(a, b);
      forall y ensures y in a[1..] <==> y in b[1..] {
        TailHas(a, y);
        TailHas(b, y);
      }
      TailAscending(a);
      TailAscending(b);
      AscendingIsCanonical(a[1..], b[1..]);
      assert a == [a[0]] + a[1..] && b == [b[0]] + b[1..];
    }
  }

  lemma HeadsAgree(a: seq<string>, b: seq<string>)
    requires Ascending(a) && Ascending(b) && a != [] && b != [] && a[0] in b && b[0] in a
    ensures a[0] == b[0]
  {
    var i :| 0 <= i < |b| && b[i] == a[0];
    var j :| 0 <= j < |a| && a[j] == b[0];
    if i > 0 && j > 0 {
      assert Less(b[0], b[i]) && Less(a[0], a[j]);
      LessTransitive(a[0], b[0], a[0]);
      LessIrreflexive(a[0]);
    }
  }

  lemma TailHas(a: seq<string>, y: string)
    requires Ascending(a) && a != []
    ensures y in a[1..] <==> y in a && y != a[0]
  {
    AscendingIsDistinct(a);
    assert y in a <==> y == a[0] || y in a[1..];
  }

  lemma TailAscending(a: seq<string>)
    requires Ascending(a) && a != []
    ensures Ascending(a[1..])
  {
    forall i, j | 0 <= i < j < |a[1..]| ensures Less(a[1..][i], a[1..][j]) {
      assert Less(a[i + 1], a[j + 1]);
    }
  }

  /** Two multilocks have the same keys in the same order exactly when they name the same things. */
  lemma SameNamesSameKeys(a: seq<string>, b: seq<string>)
    ensures KeysFor(a) == KeysFor(b) <==> forall y :: y in a <==> y in b
  {
    if forall y :: y in a <==> y in b {
      AscendingIsCanonical(KeysFor(a), KeysFor(b));
    }
    if KeysFor(a) == KeysFor(b) {
      forall y ensures y in a <==> y in b {
        assert y in KeysFor(a) <==> y in a;
        assert y in KeysFor(b) <==> y in b;
      }
    }
  }
}

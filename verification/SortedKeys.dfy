/** sorted(set(...)) over strings, as Python orders them. */
module SortedKeys {

  predicate Less(a: string, b: string) {
    b != "" && (a == "" || a[0] < b[0] || (a[0] == b[0] && Less(a[1..], b[1..])))
  }

  /** The order of strings: b goes on where a ends, or has the greater character
      where they first differ. */
  lemma {:induction false} LessIff(a: string, b: string)
    ensures Less(a, b) <==>
            exists n: nat :: n <= |a| && n < |b| && a[..n] == b[..n] && (n == |a| || a[n] < b[n])
  {
    if Less(a, b) {
      var n := FirstDifference(a, b);
    }
    if n: nat :| n <= |a| && n < |b| && a[..n] == b[..n] && (n == |a| || a[n] < b[n]) {
      LessAt(a, b, n);
    }
  }

  lemma {:induction false} FirstDifference(a: string, b: string) returns (n: nat)
    requires Less(a, b)
    ensures n <= |a| && n < |b| && a[..n] == b[..n] && (n == |a| || a[n] < b[n])
  {
    n := 0;
    if a != "" && a[0] == b[0] {
      n := FirstDifference(a[1..], b[1..]);
      n := n + 1;
      assert a[..n] == [a[0]] + a[1..][..n - 1] && b[..n] == [b[0]] + b[1..][..n - 1];
    }
  }

  lemma {:induction false} LessAt(a: string, b: string, n: nat)
    requires n <= |a| && n < |b| && a[..n] == b[..n] && (n == |a| || a[n] < b[n])
    ensures Less(a, b)
  {
    if n > 0 {
      assert a[0] == a[..n][0] == b[..n][0] == b[0];
      assert a[1..][..n - 1] == a[..n][1..] && b[1..][..n - 1] == b[..n][1..];
      LessAt(a[1..], b[1..], n - 1);
    }
  }

  lemma {:induction false} LessIsTransitive(a: string, b: string, c: string)
    requires Less(a, b) && Less(b, c)
    ensures Less(a, c)
  {
    if a != "" && a[0] == b[0] && b[0] == c[0] {
      LessIsTransitive(a[1..], b[1..], c[1..]);
    }
  }

  lemma {:induction false} LessIsTotal(a: string, b: string)
    ensures Less(a, b) || a == b || Less(b, a)
  {
    if a != "" && b != "" && a[0] == b[0] {
      LessIsTotal(a[1..], b[1..]);
      assert a == [a[0]] + a[1..] && b == [b[0]] + b[1..];
    }
  }

  lemma {:induction false} LessIsStrict(a: string, b: string)
    requires Less(a, b)
    ensures a != b && !Less(b, a)
  {
    if a != "" && a[0] == b[0] {
      LessIsStrict(a[1..], b[1..]);
    }
  }

  predicate Sorted(s: seq<string>) {
    |s| < 2 || (Less(s[0], s[1]) && Sorted(s[1..]))
  }

  function Elems(s: seq<string>): set<string> { set x | x in s }

  function InsertKey(s: seq<string>, k: string): seq<string> {
    if s == [] || Less(k, s[0]) then [k] + s
    else if k == s[0] then s
    else [s[0]] + InsertKey(s[1..], k)
  }

  /** sorted(set(keys)) */
  function SortKeys(keys: seq<string>): seq<string> {
    if keys == [] then [] else InsertKey(SortKeys(keys[1..]), keys[0])
  }

  lemma ElemsOfCons(k: string, s: seq<string>)
    ensures Elems([k] + s) == {k} + Elems(s)
  {
    var t := [k] + s;
    assert t[0] == k && t[1..] == s;
    forall x | x in s
      ensures x in t
    {
      assert x in t[1..];
    }
  }

  lemma ElemsOfAppend(a: seq<string>, b: seq<string>)
    ensures Elems(a + b) == Elems(a) + Elems(b)
  {
  }

  lemma {:induction false} InsertKeySorts(s: seq<string>, k: string)
    requires Sorted(s)
    ensures Sorted(InsertKey(s, k)) && Elems(InsertKey(s, k)) == Elems(s) + {k}
    ensures InsertKey(s, k) != [] && (InsertKey(s, k)[0] == k || (s != [] && InsertKey(s, k)[0] == s[0]))
  {
    if s == [] || Less(k, s[0]) {
      ElemsOfCons(k, s);
      assert ([k] + s)[1..] == s;
    } else if k != s[0] {
      LessIsTotal(k, s[0]);
      InsertKeySorts(s[1..], k);
      ElemsOfCons(s[0], s[1..]);
      ElemsOfCons(s[0], InsertKey(s[1..], k));
      assert [s[0]] + s[1..] == s;
      assert InsertKey(s, k)[1..] == InsertKey(s[1..], k);
    }
  }

  /** Strictly increasing, with the elements it was given. */
  lemma {:induction false} SortKeysSorts(keys: seq<string>)
    ensures Sorted(SortKeys(keys)) && Elems(SortKeys(keys)) == Elems(keys)
  {
    if keys != [] {
      SortKeysSorts(keys[1..]);
      InsertKeySorts(SortKeys(keys[1..]), keys[0]);
      ElemsOfCons(keys[0], keys[1..]);
      assert [keys[0]] + keys[1..] == keys;
    }
  }

  lemma {:induction false} HeadIsLeast(s: seq<string>, x: string)
    requires Sorted(s) && s != [] && x in s[1..]
    ensures Less(s[0], x)
  {
    if x != s[1] {
      assert s[1..] == [s[1]] + s[2..];
      assert s[1..][1..] == s[2..];
      HeadIsLeast(s[1..], x);
      LessIsTransitive(s[0], s[1], x);
    }
  }

  lemma {:induction false} ElemsOfTail(s: seq<string>)
    requires Sorted(s) && s != []
    ensures Elems(s[1..]) == Elems(s) - {s[0]} && Sorted(s[1..])
  {
    if s[0] in s[1..] {
      HeadIsLeast(s, s[0]);
      LessIsStrict(s[0], s[0]);
    }
    ElemsOfCons(s[0], s[1..]);
    assert [s[0]] + s[1..] == s;
  }

  lemma {:induction false} SameHead(a: seq<string>, b: seq<string>)
    requires Sorted(a) && Sorted(b) && Elems(a) == Elems(b) && a != [] && b != []
    ensures a[0] == b[0]
  {
    if a[0] != b[0] {
      assert a[0] in Elems(b) && b[0] in Elems(a);
      assert a == [a[0]] + a[1..] && b == [b[0]] + b[1..];
      HeadIsLeast(a, b[0]);
      HeadIsLeast(b, a[0]);
      LessIsStrict(a[0], b[0]);
    }
  }

  /** A set has one sorted listing. */
  lemma {:induction false} SortedIsUnique(a: seq<string>, b: seq<string>)
    requires Sorted(a) && Sorted(b) && Elems(a) == Elems(b)
    ensures a == b
  {
    assert b != [] ==> b[0] in Elems(b);
    if a != [] {
      assert a[0] in Elems(b);
      SameHead(a, b);
      ElemsOfTail(a);
      ElemsOfTail(b);
      SortedIsUnique(a[1..], b[1..]);
      assert a == [a[0]] + a[1..] && b == [b[0]] + b[1..];
    }
  }
}

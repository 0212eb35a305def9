/** Strings ordered by code point, and the ascending arrangement of a list of them. */
module StringOrder {
  predicate Leq(a: string, b: string) {
    || a == []
    || (b != [] && a[0] < b[0])
    || (b != [] && a[0] == b[0] && Leq(a[1..], b[1..]))
  }

  /** `b` goes on where `a` ends, or has the higher code where they first differ. */
  ghost predicate IsBefore(a: string, b: string) {
    a <= b || exists i: nat :: Differs(a, b, i)
  }

  lemma {:induction false} LeqReads(a: string, b: string)
    ensures Leq(a, b) <==> IsBefore(a, b)
  {
    if a != [] && b != [] {
      if a[0] == b[0] {
        LeqReads(a[1..], b[1..]);
        BeforeBehind(a[0], a[1..], b[1..]);
        assert a == [a[0]] + a[1..] && b == [b[0]] + b[1..];
      } else {
        assert Differs(a, b, 0) <==> a[0] < b[0];
        if i: nat :| Differs(a, b, i) {
          assert i > 0 ==> a[..i][0] == b[..i][0];
        }
      }
    }
  }

  ghost predicate Differs(a: string, b: string, i: nat) {
    i < |a| && i < |b| && a[..i] == b[..i] && a[i] < b[i]
  }

  lemma BeforeBehind(c: char, a: string, b: string)
    ensures IsBefore([c] + a, [c] + b) <==> IsBefore(a, b)
  {
    var x, y := [c] + a, [c] + b;
    PrefixBehind(c, a, b);
    hide Differs;
    if i: nat :| Differs(a, b, i) { DiffersBehind(c, a, b, i); }
    if i: nat :| Differs(x, y, i) { DiffersFirst(c, a, b, i); DiffersBehind(c, a, b, i - 1); }
  }

  lemma PrefixBehind(c: char, a: string, b: string)
    ensures [c] + a <= [c] + b <==> a <= b
  {
    var x, y := [c] + a, [c] + b;
    if x <= y { assert a == x[1..] && b == y[1..] && y[..|x|][1..] == b[..|a|]; }
    if a <= b { assert y[..|x|] == [c] + b[..|a|]; }
  }

  lemma DiffersFirst(c: char, a: string, b: string, i: nat)
    requires Differs([c] + a, [c] + b, i)
    ensures i > 0
  {
  }

  lemma DiffersBehind(c: char, a: string, b: string, i: nat)
    ensures Differs([c] + a, [c] + b, i + 1) <==> Differs(a, b, i)
  {
    var x, y := [c] + a, [c] + b;
    if i < |a| && i < |b| {
      assert x[..i + 1] == [c] + a[..i] && y[..i + 1] == [c] + b[..i];
      assert ([c] + a[..i])[1..] == a[..i] && ([c] + b[..i])[1..] == b[..i];
    }
  }

  lemma {:induction false} LeqTotal(a: string, b: string)
    ensures Leq(a, b) || Leq(b, a)
  {
    if a != [] && b != [] && a[0] == b[0] { LeqTotal(a[1..], b[1..]); }
  }

  lemma {:induction false} LeqAntisymmetric(a: string, b: string)
    requires Leq(a, b) && Leq(b, a)
    ensures a == b
  {
    if a != [] && b != [] {
      LeqAntisymmetric(a[1..], b[1..]);
      assert a == [a[0]] + a[1..] && b == [b[0]] + b[1..];
    }
  }

  lemma {:induction false} LeqTransitive(a: string, b: string, c: string)
    requires Leq(a, b) && Leq(b, c)
    ensures Leq(a, c)
  {
    if a != [] && b != [] && c != [] && a[0] == b[0] == c[0] { LeqTransitive(a[1..], b[1..], c[1..]); }
  }

  predicate Ascending(s: seq<string>) {
    |s| <= 1 || (Leq(s[0], s[1]) && Ascending(s[1..]))
  }

  function Insert(x: string, s: seq<string>): (r: seq<string>)
    ensures |r| == |s| + 1
  {
    if s == [] || Leq(x, s[0]) then [x] + s else [s[0]] + Insert(x, s[1..])
  }

  function Sort(s: seq<string>): (r: seq<string>)
    ensures |r| == |s|
  {
    if s == [] then [] else Insert(s[0], Sort(s[1..]))
  }

  lemma {:induction false} InsertAscending(x: string, s: seq<string>)
    requires Ascending(s)
    ensures Ascending(Insert(x, s))
    ensures Insert(x, s)[0] == x || (s != [] && Insert(x, s)[0] == s[0])
  {
    if s != [] && !Leq(x, s[0]) {
      LeqTotal(x, s[0]);
      InsertAscending(x, s[1..]);
      assert Insert(x, s)[1..] == Insert(x, s[1..]);
    } else {
      assert ([x] + s)[1..] == s;
    }
  }

  lemma {:induction false} InsertKeepsItems(x: string, s: seq<string>)
    ensures multiset(Insert(x, s)) == multiset{x} + multiset(s)
  {
    if s != [] {
      assert s == [s[0]] + s[1..];
      if !Leq(x, s[0]) { InsertKeepsItems(x, s[1..]); }
    }
  }

  /** Sorting gives the ascending arrangement of the same items. */
  lemma {:induction false} SortSorts(s: seq<string>)
    ensures Ascending(Sort(s)) && multiset(Sort(s)) == multiset(s)
  {
    if s != [] {
      SortSorts(s[1..]);
      InsertAscending(s[0], Sort(s[1..]));
      InsertKeepsItems(s[0], Sort(s[1..]));
      assert s == [s[0]] + s[1..];
    }
  }

  lemma {:induction false} HeadIsLeast(s: seq<string>, x: string)
    requires Ascending(s) && x in s
    ensures Leq(s[0], x)
  {
    if x == s[0] {
      LeqTotal(x, x);
    } else {
      assert x in s[1..];
      HeadIsLeast(s[1..], x);
      LeqTransitive(s[0], s[1], x);
    }
  }

  lemma {:induction false} AscendingUnique(s: seq<string>, t: seq<string>)
    requires Ascending(s) && Ascending(t) && multiset(s) == multiset(t)
    ensures s == t
  {
    assert |s| == |multiset(s)| == |multiset(t)| == |t|;
    if s != [] {
      assert s[0] in multiset(t);
      assert t[0] in multiset(s);
      HeadIsLeast(s, t[0]);
      HeadIsLeast(t, s[0]);
      LeqAntisymmetric(s[0], t[0]);
      assert s == [s[0]] + s[1..] && t == [t[0]] + t[1..];
      assert multiset(s[1..]) == multiset(s) - multiset{s[0]} == multiset(t[1..]);
      AscendingUnique(s[1..], t[1..]);
    }
  }

  /** Equal items sort to equal lists, and an ascending list is left as it is. */
  lemma SortUnique(s: seq<string>, t: seq<string>)
    requires multiset(s) == multiset(t)
    ensures Sort(s) == Sort(t)
    ensures Ascending(s) ==> Sort(s) == s
  {
    SortSorts(s);
    SortSorts(t);
    AscendingUnique(Sort(s), Sort(t));
    if Ascending(s) { AscendingUnique(Sort(s), s); }
  }
}

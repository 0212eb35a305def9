/**
 The edit distance behind command suggestions: a two-row table, the recursive
 Levenshtein distance it computes, and edit scripts as what the distance means.
 */
module EditDistance {

  type Text = seq<char>

  function Min(a: nat, b: nat): nat {
    if a <= b then a else b
  }

  function Max(a: nat, b: nat): nat {
    if a <= b then b else a
  }

  function Front(s: Text): Text
    requires s != []
  {
    s[..|s| - 1]
  }

  function Last(s: Text): char
    requires s != []
  {
    s[|s| - 1]
  }

  /** The Levenshtein distance, by the last characters. */
  function Distance(a: Text, b: Text): nat
    decreases |a| + |b|
  {
    if a == [] then |b|
    else if b == [] then |a|
    else
      LeastOf(Distance(a, Front(b)) + 1, Distance(Front(a), b) + 1,
        Distance(Front(a), Front(b)) + if Last(a) != Last(b) then 1 else 0)
  }

  function LeastOf(insert: nat, delete: nat, substitute: nat): nat {
    Min(Min(insert, delete), substitute)
  }

  /** A row of the table up to column `j`, from the row before it. */
  function RowUpTo(previous: seq<nat>, first: nat, c: char, right: Text, j: nat): (row: seq<nat>)
    requires |previous| == |right| + 1 && j <= |right|
    ensures |row| == j + 1
  {
    if j == 0 then [first]
    else
      var row := RowUpTo(previous, first, c, right, j - 1);
      row + [LeastOf(row[j - 1] + 1, previous[j] + 1, previous[j - 1] + if c != right[j - 1] then 1 else 0)]
  }

  /** The table's row for the first `i` characters of `left`. */
  function Row(left: Text, right: Text, i: nat): (row: seq<nat>)
    requires i <= |left|
    ensures |row| == |right| + 1
  {
    if i == 0 then seq(|right| + 1, j => j)
    else RowUpTo(Row(left, right, i - 1), i, left[i - 1], right, |right|)
  }

  lemma {:induction false} DistanceUnfolds(a: Text, b: Text)
    requires a != [] && b != []
    ensures Distance(a, b) == LeastOf(Distance(a, Front(b)) + 1, Distance(Front(a), b) + 1,
      Distance(Front(a), Front(b)) + if Last(a) != Last(b) then 1 else 0)
  {
    hide Last, LeastOf;
  }

  lemma {:induction false} DistanceOfNothing(a: Text, b: Text)
    ensures a == [] ==> Distance(a, b) == |b| && (b != [] ==> Distance(a, Front(b)) == |b| - 1)
    ensures b == [] ==> Distance(a, b) == |a| && (a != [] ==> Distance(Front(a), b) == |a| - 1)
  {
  }

  lemma RowUnfolds(left: Text, right: Text, i: nat)
    requires 0 < i <= |left|
    ensures Row(left, right, i) == RowUpTo(Row(left, right, i - 1), i, left[i - 1], right, |right|)
  {
  }

  lemma EntryUnfolds(previous: seq<nat>, first: nat, c: char, right: Text, j: nat)
    requires |previous| == |right| + 1 && 0 < j <= |right|
    ensures var row := RowUpTo(previous, first, c, right, j - 1);
      RowUpTo(previous, first, c, right, j) ==
      row + [LeastOf(row[j - 1] + 1, previous[j] + 1, previous[j - 1] + if c != right[j - 1] then 1 else 0)]
  {
  }

  lemma RowBegins(previous: seq<nat>, first: nat, c: char, right: Text)
    requires |previous| == |right| + 1
    ensures RowUpTo(previous, first, c, right, 0) == [first]
  {
  }

  lemma EntryIs(previous: seq<nat>, first: nat, c: char, right: Text, j: nat)
    requires |previous| == |right| + 1 && j < |right|
    ensures var row := RowUpTo(previous, first, c, right, j);
      RowUpTo(previous, first, c, right, j + 1) ==
      row + [Min(Min(row[j] + 1, previous[j + 1] + 1), previous[j] + if c != right[j] then 1 else 0)]
  {
    hide RowUpTo;
    EntryUnfolds(previous, first, c, right, j + 1);
  }

  method ComputeDistance(left: Text, right: Text) returns (distance: nat)
    ensures distance == Distance(left, right)
  {
    var previous: seq<nat> := seq(|right| + 1, j => j);
    assert previous == Row(left, right, 0);
    hide Row, RowUpTo, Min, Distance;
    for i := 0 to |left|
      invariant previous == Row(left, right, i)
    {
      var current := [i + 1];
      RowBegins(previous, i + 1, left[i], right);
      for j := 0 to |right|
        invariant current == RowUpTo(previous, i + 1, left[i], right, j)
      {
        EntryIs(previous, i + 1, left[i], right, j);
        var substitution := previous[j] + if left[i] != right[j] then 1 else 0;
        current := current + [Min(Min(current[j] + 1, previous[j + 1] + 1), substitution)];
      }
      RowUnfolds(left, right, i + 1);
      previous := current;
    }
    RowIsDistance(left, right, |left|, |right|);
    assert left[..|left|] == left && right[..|right|] == right;
    return previous[|right|];
  }

  lemma {:induction false} RowUpToExtends(previous: seq<nat>, first: nat, c: char, right: Text, j: nat, k: nat)
    requires |previous| == |right| + 1 && k <= j <= |right|
    ensures RowUpTo(previous, first, c, right, j)[..k + 1] == RowUpTo(previous, first, c, right, k)
    decreases j
  {
    if k < j { RowUpToExtends(previous, first, c, right, j - 1, k); }
  }

  /** Each entry of a row, from its three neighbours. */
  lemma RowEntry(left: Text, right: Text, i: nat, j: nat)
    requires 0 < i <= |left| && 0 < j <= |right|
    ensures Row(left, right, i)[j] == LeastOf(Row(left, right, i)[j - 1] + 1, Row(left, right, i - 1)[j] + 1,
      Row(left, right, i - 1)[j - 1] + if left[i - 1] != right[j - 1] then 1 else 0)
  {
    hide Row, RowUpTo;
    var previous, c, n := Row(left, right, i - 1), left[i - 1], |right|;
    RowUnfolds(left, right, i);
    EntryUnfolds(previous, i, c, right, j);
    RowUpToExtends(previous, i, c, right, n, j - 1);
    RowUpToExtends(previous, i, c, right, n, j);
    var row := RowUpTo(previous, i, c, right, n);
    assert row[j] == row[..j + 1][j] && row[j - 1] == row[..j][j - 1];
  }

  lemma DistanceStep(left: Text, right: Text, i: nat, j: nat)
    requires 0 < i <= |left| && 0 < j <= |right|
    ensures Distance(left[..i], right[..j]) == LeastOf(
      Distance(left[..i], right[..j - 1]) + 1,
      Distance(left[..i - 1], right[..j]) + 1,
      Distance(left[..i - 1], right[..j - 1]) + if left[i - 1] != right[j - 1] then 1 else 0)
  {
    hide Distance;
    DistanceUnfolds(left[..i], right[..j]);
    assert Front(left[..i]) == left[..i - 1] && Front(right[..j]) == right[..j - 1];
  }

  lemma RowEdge(left: Text, right: Text, i: nat, j: nat)
    requires i <= |left| && j <= |right| && (i == 0 || j == 0)
    ensures Row(left, right, i)[j] == i + j == Distance(left[..i], right[..j])
  {
    if i > 0 {
      RowUpToExtends(Row(left, right, i - 1), i, left[i - 1], right, |right|, 0);
      assert Row(left, right, i)[0] == Row(left, right, i)[..1][0];
    }
  }

  lemma {:induction false} RowIsDistance(left: Text, right: Text, i: nat, j: nat)
    requires i <= |left| && j <= |right|
    ensures Row(left, right, i)[j] == Distance(left[..i], right[..j])
  {
    hide *;
    if i == 0 || j == 0 {
      RowEdge(left, right, i, j);
    } else {
      RowIsDistance(left, right, i, j - 1);
      RowIsDistance(left, right, i - 1, j);
      RowIsDistance(left, right, i - 1, j - 1);
      RowEntry(left, right, i, j);
      DistanceStep(left, right, i, j);
    }
  }

  // ---------------------------------------------------------------------
  // Edit scripts
  // ---------------------------------------------------------------------

  datatype Edit = Keep(c: char) | Substitute(from: char, to: char) | Insert(c: char) | Delete(c: char)

  type Script = seq<Edit>

  function EditFrom(e: Edit): Text {
    match e
    case Keep(c) => [c]
    case Substitute(x, _) => [x]
    case Insert(_) => []
    case Delete(c) => [c]
  }

  function EditTo(e: Edit): Text {
    match e
    case Keep(c) => [c]
    case Substitute(_, y) => [y]
    case Insert(c) => [c]
    case Delete(_) => []
  }

  function EditCost(e: Edit): nat {
    if e.Keep? then 0 else 1
  }

  function Source(s: Script): Text {
    if s == [] then [] else Source(s[..|s| - 1]) + EditFrom(s[|s| - 1])
  }

  function Target(s: Script): Text {
    if s == [] then [] else Target(s[..|s| - 1]) + EditTo(s[|s| - 1])
  }

  function Cost(s: Script): nat {
    if s == [] then 0 else Cost(s[..|s| - 1]) + EditCost(s[|s| - 1])
  }

  ghost predicate Edits(s: Script, a: Text, b: Text) {
    Source(s) == a && Target(s) == b
  }

  lemma Extend(s: Script, e: Edit)
    ensures Source(s + [e]) == Source(s) + EditFrom(e)
    ensures Target(s + [e]) == Target(s) + EditTo(e)
    ensures Cost(s + [e]) == Cost(s) + EditCost(e)
  {
    assert (s + [e])[..|s|] == s;
  }

  /** No script is cheaper than the distance. */
  lemma {:induction false} DistanceIsLowerBound(s: Script)
    ensures Distance(Source(s), Target(s)) <= Cost(s)
  {
    if s != [] {
      var rest, e := s[..|s| - 1], s[|s| - 1];
      DistanceIsLowerBound(rest);
      var a, b := Source(rest), Target(rest);
      OneEdit(a, b, e);
    }
  }

  /** An edit at the end changes the distance by at most its cost. */
  lemma OneEdit(a: Text, b: Text, e: Edit)
    ensures Distance(a + EditFrom(e), b + EditTo(e)) <= Distance(a, b) + EditCost(e)
  {
    var x, y := EditFrom(e), EditTo(e);
    if x != [] { assert Front(a + x) == a; }
    if y != [] { assert Front(b + y) == b; }
    assert a + [] == a && b + [] == b;
    if x == [] && a == [] {
      assert Distance(a, b + y) == |b + y|;
    } else if y == [] && b == [] {
      assert Distance(a + x, b) == |a + x|;
    }
  }

  /** The last edit of a shortest script. */
  lemma {:induction false} LastEdit(a: Text, b: Text) returns (a': Text, b': Text, e: Edit)
    requires a != [] || b != []
    ensures a == a' + EditFrom(e) && b == b' + EditTo(e)
    ensures Distance(a, b) == Distance(a', b') + EditCost(e)
  {
    DistanceOfNothing(a, b);
    if a != [] {
      FrontAndLast(a);
    }
    if b != [] {
      FrontAndLast(b);
    }
    if a != [] && b != [] {
      DistanceUnfolds(a, b);
    }
    hide Distance, Front, Last;
    if a == [] || (b != [] && Distance(a, b) == Distance(a, Front(b)) + 1) {
      a', b', e := a, Front(b), Insert(Last(b));
      assert a + [] == a;
    } else if b == [] || Distance(a, b) == Distance(Front(a), b) + 1 {
      a', b', e := Front(a), b, Delete(Last(a));
      assert b + [] == b;
    } else {
      a', b', e := Front(a), Front(b), if Last(a) == Last(b) then Keep(Last(a)) else Substitute(Last(a), Last(b));
    }
  }

  lemma FrontAndLast(s: Text)
    requires s != []
    ensures s == Front(s) + [Last(s)]
  {
  }

  /** Some script costs exactly the distance. */
  lemma {:induction false} DistanceIsAchieved(a: Text, b: Text) returns (s: Script)
    ensures Edits(s, a, b) && Cost(s) == Distance(a, b)
    decreases |a| + |b|
  {
    s := [];
    if a != [] || b != [] {
      var a', b', e := LastEdit(a, b);
      s := DistanceIsAchieved(a', b');
      Extend(s, e);
      s := s + [e];
    }
  }

  /** The distance is the length of a shortest edit script. */
  lemma DistanceIsShortestScript(a: Text, b: Text)
    ensures exists s :: Edits(s, a, b) && Cost(s) == Distance(a, b)
    ensures forall s | Edits(s, a, b) :: Distance(a, b) <= Cost(s)
  {
    var s := DistanceIsAchieved(a, b);
    forall s | Edits(s, a, b) ensures Distance(a, b) <= Cost(s) {
      DistanceIsLowerBound(s);
    }
  }

  // ---------------------------------------------------------------------
  // A metric
  // ---------------------------------------------------------------------

  lemma {:induction false} FreeScriptKeeps(s: Script)
    requires Cost(s) == 0
    ensures Source(s) == Target(s)
  {
    if s != [] { FreeScriptKeeps(s[..|s| - 1]); }
  }

  lemma {:induction false} DistanceToSelf(a: Text)
    ensures Distance(a, a) == 0
  {
    if a != [] { DistanceToSelf(Front(a)); }
  }

  lemma {:induction false} DistanceZeroIffEqual(a: Text, b: Text)
    ensures Distance(a, b) == 0 <==> a == b
  {
    DistanceToSelf(a);
    if Distance(a, b) == 0 {
      var s := DistanceIsAchieved(a, b);
      FreeScriptKeeps(s);
    }
  }

  lemma {:induction false} DistanceSymmetric(a: Text, b: Text)
    ensures Distance(a, b) == Distance(b, a)
    decreases |a| + |b|
  {
    if a != [] && b != [] {
      DistanceSymmetric(a, Front(b));
      DistanceSymmetric(Front(a), b);
      DistanceSymmetric(Front(a), Front(b));
    }
  }

  /** One edit doing what an edit of `x` to `y` and one of `y` to `z` do together. */
  function Fuse(first: Edit, second: Edit): Script
    requires !first.Delete? && !second.Insert?
  {
    if EditFrom(first) == [] then
      if EditTo(second) == [] then [] else [Insert(EditTo(second)[0])]
    else if EditTo(second) == [] then [Delete(EditFrom(first)[0])]
    else if EditFrom(first)[0] == EditTo(second)[0] then [Keep(EditFrom(first)[0])]
    else [Substitute(EditFrom(first)[0], EditTo(second)[0])]
  }

  lemma FuseEffect(s: Script, first: Edit, second: Edit)
    requires !first.Delete? && !second.Insert? && EditTo(first) == EditFrom(second)
    ensures Source(s + Fuse(first, second)) == Source(s) + EditFrom(first)
    ensures Target(s + Fuse(first, second)) == Target(s) + EditTo(second)
    ensures Cost(s + Fuse(first, second)) <= Cost(s) + EditCost(first) + EditCost(second)
  {
    FuseActs(first, second);
    hide Source, Target, Cost, Fuse, EditFrom, EditTo, EditCost;
    var fused := Fuse(first, second);
    if fused == [] {
      assert s + [] == s;
    } else {
      Extend(s, fused[0]);
      assert fused == [fused[0]];
    }
  }

  lemma FuseActs(first: Edit, second: Edit)
    requires !first.Delete? && !second.Insert? && EditTo(first) == EditFrom(second)
    ensures Fuse(first, second) == [] ==> EditFrom(first) == [] && EditTo(second) == []
    ensures var fused := Fuse(first, second);
      fused != [] ==>
        |fused| == 1 && EditFrom(fused[0]) == EditFrom(first) && EditTo(fused[0]) == EditTo(second) &&
        EditCost(fused[0]) <= EditCost(first) + EditCost(second)
  {
  }

  /** `s` does what `first` and then `second` do, for no more. */
  ghost predicate Composes(s: Script, first: Script, second: Script) {
    Edits(s, Source(first), Target(second)) && Cost(s) <= Cost(first) + Cost(second)
  }

  lemma AfterDelete(s: Script, first: Script, e: Edit, second: Script)
    requires e.Delete? && Composes(s, first, second)
    ensures Composes(s + [e], first + [e], second)
  {
    Extend(s, e);
    Extend(first, e);
  }

  lemma AfterInsert(s: Script, first: Script, second: Script, e: Edit)
    requires e.Insert? && Composes(s, first, second)
    ensures Composes(s + [e], first, second + [e])
  {
    Extend(s, e);
    Extend(second, e);
  }

  lemma AfterBoth(s: Script, first: Script, e: Edit, second: Script, f: Edit)
    requires !e.Delete? && !f.Insert? && EditTo(e) == EditFrom(f) && Composes(s, first, second)
    ensures Composes(s + Fuse(e, f), first + [e], second + [f])
  {
    FuseEffect(s, e, f);
    Extend(first, e);
    Extend(second, f);
  }

  /** Where one script's last edit writes and the next one's reads, it is the same character. */
  lemma SharedLast(first: Script, e: Edit, second: Script, f: Edit)
    requires Target(first + [e]) == Source(second + [f]) && !e.Delete? && !f.Insert?
    ensures EditTo(e) == EditFrom(f) && Target(first) == Source(second)
  {
    Extend(first, e);
    Extend(second, f);
    var x, y := Target(first) + EditTo(e), Source(second) + EditFrom(f);
    assert x[..|x| - 1] == Target(first) && y[..|y| - 1] == Source(second);
    assert x[|x| - 1..] == EditTo(e) && y[|y| - 1..] == EditFrom(f);
  }

  /** Two scripts in a row make one that costs no more than both. */
  lemma {:induction false} Compose(first: Script, second: Script) returns (s: Script)
    requires Target(first) == Source(second)
    ensures Composes(s, first, second)
    decreases |first| + |second|, 1
  {
    if first == [] && second == [] {
      s := [];
    } else if first != [] && first[|first| - 1].Delete? {
      var front, e := first[..|first| - 1], first[|first| - 1];
      assert first == front + [e];
      Extend(front, e);
      s := Compose(front, second);
      AfterDelete(s, front, e, second);
      s := s + [e];
    } else if second != [] && second[|second| - 1].Insert? {
      var front, e := second[..|second| - 1], second[|second| - 1];
      assert second == front + [e];
      Extend(front, e);
      s := Compose(first, front);
      AfterInsert(s, first, front, e);
      s := s + [e];
    } else {
      s := ComposeBoth(first, second);
    }
  }

  lemma {:induction false} ComposeBoth(first: Script, second: Script) returns (s: Script)
    requires Target(first) == Source(second) && (first != [] || second != [])
    requires (first != [] ==> !first[|first| - 1].Delete?) && (second != [] ==> !second[|second| - 1].Insert?)
    ensures Composes(s, first, second)
    decreases |first| + |second|, 0
  {
    var front, e := first[..|first| - 1], first[|first| - 1];
    var back, f := second[..|second| - 1], second[|second| - 1];
    assert first == front + [e] && second == back + [f];
    SharedLast(front, e, back, f);
    s := Compose(front, back);
    AfterBoth(s, front, e, back, f);
    s := s + Fuse(e, f);
  }

  lemma {:induction false} TriangleInequality(a: Text, b: Text, c: Text)
    ensures Distance(a, c) <= Distance(a, b) + Distance(b, c)
  {
    var first := DistanceIsAchieved(a, b);
    var second := DistanceIsAchieved(b, c);
    var s := Compose(first, second);
    DistanceIsLowerBound(s);
  }

  /** At least the difference of the lengths, at most the longer length. */
  lemma {:induction false} DistanceBounds(a: Text, b: Text)
    ensures Max(|a|, |b|) - Min(|a|, |b|) <= Distance(a, b) <= Max(|a|, |b|)
    decreases |a| + |b|
  {
    if a != [] && b != [] {
      DistanceBounds(a, Front(b));
      DistanceBounds(Front(a), b);
      DistanceBounds(Front(a), Front(b));
    }
  }
}

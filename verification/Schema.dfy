/**
 The canonical spelling of a JSON schema: `required` lists and `type` lists in
 ascending order, and `oneOf` of a schema and null folded into a nullable `type`.
 */
module Schema {
  import opened Wrappers
  import opened StringOrder

  datatype Json =
    | Null
    | Bool(value: bool)
    | Num(number: real)
    | Str(text: string)
    | Arr(items: seq<Json>)
    | Obj(fields: map<string, Json>)

  const TYPE := "type"
  const ONE_OF := "oneOf"
  const REQUIRED := "required"
  const NULL_TYPE := "null"
  const NULL_SCHEMA := Obj(map[TYPE := Str(NULL_TYPE)])

  lemma KeysDiffer()
    ensures TYPE != ONE_OF && TYPE != REQUIRED && ONE_OF != REQUIRED
  {
    assert |TYPE| == 4 && |ONE_OF| == 5 && |REQUIRED| == 8;
  }

  // ---------------------------------------------------------------------
  // Sorted lists
  // ---------------------------------------------------------------------

  predicate AllStrings(items: seq<Json>) {
    forall i | 0 <= i < |items| :: items[i].Str?
  }

  /** Lists that sorting accepts: strings, or too short to compare anything. */
  predicate Sortable(items: seq<Json>) {
    |items| <= 1 || AllStrings(items)
  }

  /** Sorting raises unless whatever two items it compares are strings. */
  lemma SortableIff(items: seq<Json>)
    ensures Sortable(items) <==> forall i, j | 0 <= i < j < |items| :: AreStrings(items[i], items[j])
  {
    if |items| > 1 && forall i, j | 0 <= i < j < |items| :: AreStrings(items[i], items[j]) {
      forall k | 0 <= k < |items| ensures items[k].Str? {
        assert AreStrings(items[0], items[if k == 0 then 1 else k]);
      }
    }
  }

  predicate AreStrings(x: Json, y: Json) {
    x.Str? && y.Str?
  }

  function Texts(items: seq<Json>): (texts: seq<string>)
    requires AllStrings(items)
    ensures |texts| == |items| && forall i | 0 <= i < |items| :: items[i] == Str(texts[i])
  {
    seq(|items|, i requires 0 <= i < |items| => items[i].text)
  }

  function Strings(texts: seq<string>): (items: seq<Json>)
    ensures |items| == |texts| && AllStrings(items) && forall i | 0 <= i < |texts| :: items[i] == Str(texts[i])
  {
    seq(|texts|, i requires 0 <= i < |texts| => Str(texts[i]))
  }

  function Sorted(items: seq<Json>): seq<Json> {
    if AllStrings(items) then Strings(Sort(Texts(items))) else items
  }

  predicate InOrder(items: seq<Json>) {
    Sortable(items) && Sorted(items) == items
  }

  lemma SortedInOrder(items: seq<Json>)
    requires Sortable(items)
    ensures InOrder(Sorted(items)) && (AllStrings(items) ==> AllStrings(Sorted(items)))
  {
    if AllStrings(items) {
      var texts := Sort(Texts(items));
      SortSorts(Texts(items));
      SortUnique(texts, texts);
      assert Texts(Strings(texts)) == texts;
    }
  }

  lemma SortedKeepsItems(items: seq<Json>, x: Json)
    ensures x in Sorted(items) <==> x in items
  {
    if AllStrings(items) {
      var texts := Texts(items);
      SortSorts(texts);
      assert x in items <==> x.Str? && x.text in multiset(texts);
      assert x in Strings(Sort(texts)) <==> x.Str? && x.text in multiset(Sort(texts));
    }
  }

  // ---------------------------------------------------------------------
  // The canonical spelling
  // ---------------------------------------------------------------------

  /** The branch of a two-branch `oneOf` that is not the null schema. */
  function Other(variants: seq<Json>): Json
    requires |variants| == 2
  {
    if variants[0] == NULL_SCHEMA then variants[1] else variants[0]
  }

  predicate IsNullable(variants: seq<Json>) {
    && |variants| == 2
    && (variants[0] == NULL_SCHEMA) != (variants[1] == NULL_SCHEMA)
    && Other(variants).Obj?
    && TYPE in Other(variants).fields && Other(variants).fields[TYPE].Str?
  }

  predicate Folds(node: map<string, Json>) {
    ONE_OF in node && node[ONE_OF].Arr? && IsNullable(node[ONE_OF].items)
  }

  function Branch(node: map<string, Json>): map<string, Json>
    requires Folds(node)
  {
    Other(node[ONE_OF].items).fields
  }

  function NullableType(branch: map<string, Json>): Json
    requires TYPE in branch
  {
    Arr(Sorted([branch[TYPE], Str(NULL_TYPE)]))
  }

  function MergeNullableOneOf(node: map<string, Json>): map<string, Json> {
    if Folds(node) then (node - {ONE_OF}) + Branch(node)[TYPE := NullableType(Branch(node))]
    else node
  }

  function SortType(node: map<string, Json>): map<string, Json> {
    if TYPE in node && node[TYPE].Arr? then node[TYPE := Arr(Sorted(node[TYPE].items))] else node
  }

  predicate IsRequiredList(key: string, value: Json) {
    key == REQUIRED && value.Arr?
  }

  function CanonicalField(key: string, value: Json): Json
    decreases value, 2
  {
    if IsRequiredList(key, value) then Arr(Sorted(value.items)) else Canonical(value)
  }

  function CanonicalFields(x: Json): map<string, Json>
    requires x.Obj?
    decreases x, 0
  {
    map key | key in x.fields :: CanonicalField(key, x.fields[key])
  }

  function Canonical(x: Json): Json
    decreases x, 1
  {
    match x
    case Obj(_) => Obj(SortType(MergeNullableOneOf(CanonicalFields(x))))
    case Arr(items) => Arr(seq(|items|, i requires 0 <= i < |items| => Canonical(items[i])))
    case _ => x
  }

  // Sorting a list whose items cannot be compared raises instead.

  predicate ComparableField(key: string, value: Json)
    decreases value, 1
  {
    if IsRequiredList(key, value) then Sortable(value.items) else Comparable(value)
  }

  predicate Comparable(x: Json)
    decreases x, 0
  {
    match x
    case Obj(node) =>
      && (forall key | key in node :: ComparableField(key, node[key]))
      && var merged := MergeNullableOneOf(CanonicalFields(x));
         (TYPE in merged && merged[TYPE].Arr? ==> Sortable(merged[TYPE].items))
    case Arr(items) => forall i | 0 <= i < |items| :: Comparable(items[i])
    case _ => true
  }

  datatype Raised = TypeError

  function Canonicalize(x: Json): Result<Json, Raised> {
    if Comparable(x) then Ok(Canonical(x)) else Err(TypeError)
  }

  // ---------------------------------------------------------------------
  // Canonical forms are the fixed points
  // ---------------------------------------------------------------------

  predicate IsCanonicalField(key: string, value: Json)
    decreases value, 1
  {
    if IsRequiredList(key, value) then InOrder(value.items) else IsCanonical(value)
  }

  predicate IsCanonical(x: Json)
    decreases x, 0
  {
    match x
    case Obj(node) =>
      && (forall key | key in node :: IsCanonicalField(key, node[key]))
      && !Folds(node)
      && (TYPE in node && node[TYPE].Arr? ==> InOrder(node[TYPE].items))
    case Arr(items) => forall i | 0 <= i < |items| :: IsCanonical(items[i])
    case _ => true
  }

  lemma {:induction false} CanonicalIsFixed(x: Json)
    requires IsCanonical(x)
    ensures Canonical(x) == x && Comparable(x)
  {
    match x
    case Obj(node) =>
      forall key | key in node ensures CanonicalField(key, node[key]) == node[key] && ComparableField(key, node[key]) {
        assert IsCanonicalField(key, node[key]);
        if !IsRequiredList(key, node[key]) { CanonicalIsFixed(node[key]); }
      }
      assert CanonicalFields(x) == node;
    case Arr(items) =>
      forall i | 0 <= i < |items| ensures Canonical(items[i]) == items[i] && Comparable(items[i]) {
        CanonicalIsFixed(items[i]);
      }
    case _ =>
  }

  lemma NullableTypeInOrder(branch: map<string, Json>)
    requires TYPE in branch && branch[TYPE].Str?
    ensures NullableType(branch).Arr? && InOrder(NullableType(branch).items) && AllStrings(NullableType(branch).items)
  {
    SortedInOrder([branch[TYPE], Str(NULL_TYPE)]);
  }

  lemma StringsAreCanonical(items: seq<Json>)
    requires AllStrings(items)
    ensures IsCanonical(Arr(items))
  {
  }

  ghost predicate CanonicalEach(node: map<string, Json>) {
    forall key | key in node :: IsCanonicalField(key, node[key])
  }

  /** Folding a node of canonical fields leaves nothing more to fold. */
  lemma FoldIsCanonical(node: map<string, Json>)
    requires CanonicalEach(node) && Folds(node)
    ensures CanonicalEach(MergeNullableOneOf(node)) && !Folds(MergeNullableOneOf(node))
    ensures TYPE in MergeNullableOneOf(node) && MergeNullableOneOf(node)[TYPE] == NullableType(Branch(node))
  {
    var branch, merged := Branch(node), MergeNullableOneOf(node);
    var variants := node[ONE_OF].items;
    KeysDiffer();
    assert IsCanonicalField(ONE_OF, node[ONE_OF]) && IsCanonical(Arr(variants));
    assert IsCanonical(variants[0]) && IsCanonical(variants[1]);
    assert Other(variants) == Obj(branch);
    assert IsCanonical(Other(variants)) && CanonicalEach(branch) && !Folds(branch);
    NullableTypeInOrder(branch);
    StringsAreCanonical(NullableType(branch).items);
    forall key | key in merged ensures IsCanonicalField(key, merged[key]) {
      if key == TYPE {
        assert merged[key] == NullableType(branch);
      } else if key in branch {
        assert merged[key] == branch[key];
      } else {
        assert merged[key] == node[key];
      }
    }
  }

  lemma SortTypeIsCanonical(node: map<string, Json>)
    requires CanonicalEach(node) && !Folds(node)
    requires TYPE in node && node[TYPE].Arr? ==> Sortable(node[TYPE].items)
    ensures IsCanonical(Obj(SortType(node)))
  {
    var typed := SortType(node);
    if TYPE in node && node[TYPE].Arr? {
      var items := node[TYPE].items;
      SortedInOrder(items);
      assert IsCanonicalField(TYPE, node[TYPE]);
      if AllStrings(items) { StringsAreCanonical(Sorted(items)); }
      assert IsCanonicalField(TYPE, typed[TYPE]);
    }
    forall key | key in typed ensures IsCanonicalField(key, typed[key]) {
      if key != TYPE { assert IsCanonicalField(key, node[key]); }
    }
  }

  lemma {:induction false} ResultIsCanonical(x: Json)
    requires Comparable(x)
    ensures IsCanonical(Canonical(x))
  {
    match x
    case Obj(node) =>
      var fields := CanonicalFields(x);
      forall key | key in fields ensures IsCanonicalField(key, fields[key]) {
        assert ComparableField(key, node[key]) && fields[key] == CanonicalField(key, node[key]);
        if IsRequiredList(key, node[key]) {
          SortedInOrder(node[key].items);
        } else {
          ResultIsCanonical(node[key]);
          CanonicalKeepsArrays(node[key]);
        }
      }
      if Folds(fields) { FoldIsCanonical(fields); }
      SortTypeIsCanonical(MergeNullableOneOf(fields));
    case Arr(items) =>
      forall i | 0 <= i < |items| ensures IsCanonical(Canonical(items[i])) { ResultIsCanonical(items[i]); }
    case _ =>
  }

  lemma CanonicalKeepsArrays(x: Json)
    ensures Canonical(x).Arr? <==> x.Arr?
  {
  }

  /**
   Canonicalising twice is canonicalising once, and what it leaves alone are
   exactly the canonical forms.
   */
  lemma CanonicalIdempotent(x: Json)
    ensures Canonicalize(x).Ok? ==> Canonicalize(Canonicalize(x).value) == Canonicalize(x)
    ensures Canonicalize(x) == Ok(x) <==> IsCanonical(x)
  {
    if Comparable(x) {
      ResultIsCanonical(x);
      CanonicalIsFixed(Canonical(x));
    }
    if IsCanonical(x) { CanonicalIsFixed(x); }
  }
}

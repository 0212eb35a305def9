/**
 What a schema accepts, after JSON Schema Core and Validation 2020-12, and when
 its canonical spelling accepts the same documents. The keywords of a node that have
 no meaning of their own here are given one together, by the parameter `other`,
 which may be anything; so is the matching of property names against patterns.
 */
module SchemaMeaning {
  import opened Schema
  import opened StringOrder

  datatype Kind =
    | Type
    | Required
    | OneOf
    | AnyOf
    | AllOf
    | Not
    | Properties
    | PatternProperties
    | AdditionalProperties
    | PrefixItems
    | Items
    | Enum
    | Const
    | Annotation
    | Unlisted

  const PROPERTIES := "properties"
  const PATTERN_PROPERTIES := "patternProperties"
  const PREFIX_ITEMS := "prefixItems"

  /** Section 9 of the Validation specification, and section 8.3 of Core. */
  const ANNOTATIONS := {
    "title", "description", "default", "deprecated", "readOnly", "writeOnly", "examples", "$comment"
  }

  function KindOf(key: string): (kind: Kind)
    ensures kind == Type <==> key == TYPE
    ensures kind == Required <==> key == REQUIRED
    ensures kind == OneOf <==> key == ONE_OF
    ensures kind == Properties <==> key == PROPERTIES
    ensures kind == PatternProperties <==> key == PATTERN_PROPERTIES
    ensures kind == PrefixItems <==> key == PREFIX_ITEMS
  {
    if key == TYPE then Type
    else if key == REQUIRED then Required
    else if key == ONE_OF then OneOf
    else if key == PROPERTIES then Properties
    else if key == PATTERN_PROPERTIES then PatternProperties
    else if key == PREFIX_ITEMS then PrefixItems
    else if key == "anyOf" then AnyOf
    else if key == "allOf" then AllOf
    else if key == "not" then Not
    else if key == "additionalProperties" then AdditionalProperties
    else if key == "items" then Items
    else if key == "enum" then Enum
    else if key == "const" then Const
    else if key in ANNOTATIONS then Annotation
    else Unlisted
  }

  /** What all unlisted keywords of a node say together, and whether a pattern matches a name. */
  datatype Semantics = Semantics(other: (map<string, Json>, Json) -> bool, matches: (string, string) -> bool)

  predicate HasType(doc: Json, name: string) {
    match doc
    case Null => name == NULL_TYPE
    case Bool(_) => name == "boolean"
    case Num(x) => name == "number" || (name == "integer" && x == x.Floor as real)
    case Str(_) => name == "string"
    case Arr(_) => name == "array"
    case Obj(_) => name == "object"
  }

  predicate AcceptsType(value: Json, doc: Json) {
    match value
    case Str(name) => HasType(doc, name)
    case Arr(names) => exists name | name in names :: name.Str? && HasType(doc, name.text)
    case _ => false
  }

  predicate AcceptsRequired(value: Json, doc: Json) {
    value.Arr? && (doc.Obj? ==> forall name | name in value.items :: name.Str? && name.text in doc.fields)
  }

  /** What `additionalProperties` and `items` read of the keywords beside them. */
  datatype Beside = Beside(declared: set<string>, patterns: set<string>, prefix: nat)

  function NamesIn(node: map<string, Json>, key: string): set<string> {
    if key in node && node[key].Obj? then node[key].fields.Keys else {}
  }

  function BesideOf(node: map<string, Json>): Beside {
    Beside(
      NamesIn(node, PROPERTIES),
      NamesIn(node, PATTERN_PROPERTIES),
      if PREFIX_ITEMS in node && node[PREFIX_ITEMS].Arr? then |node[PREFIX_ITEMS].items| else 0)
  }

  predicate Additional(sem: Semantics, beside: Beside, p: string) {
    p !in beside.declared && forall q | q in beside.patterns :: !sem.matches(q, p)
  }

  /** One keyword's assertion. */
  predicate AcceptsField(sem: Semantics, key: string, value: Json, beside: Beside, doc: Json)
    decreases value, 2
  {
    match KindOf(key)
    case Type => AcceptsType(value, doc)
    case Required => AcceptsRequired(value, doc)
    case OneOf => value.Arr? && ExactlyOne(Verdicts(sem, value, doc))
    case AnyOf => value.Arr? && true in Verdicts(sem, value, doc)
    case AllOf => value.Arr? && false !in Verdicts(sem, value, doc)
    case Not => !Accepts(sem, value, doc)
    case Properties =>
      value.Obj? &&
      (doc.Obj? ==> forall p | p in value.fields && p in doc.fields :: Accepts(sem, value.fields[p], doc.fields[p]))
    case PatternProperties =>
      value.Obj? &&
      (doc.Obj? ==> forall q, p | q in value.fields && p in doc.fields && sem.matches(q, p) ::
        Accepts(sem, value.fields[q], doc.fields[p]))
    case AdditionalProperties =>
      doc.Obj? ==> forall p | p in doc.fields && Additional(sem, beside, p) :: Accepts(sem, value, doc.fields[p])
    case PrefixItems =>
      value.Arr? &&
      (doc.Arr? ==> forall i | 0 <= i < |value.items| && i < |doc.items| :: Accepts(sem, value.items[i], doc.items[i]))
    case Items => doc.Arr? ==> forall i | beside.prefix <= i < |doc.items| :: Accepts(sem, value, doc.items[i])
    case Enum => value.Arr? && doc in value.items
    case Const => doc == value
    case Annotation => true
    case Unlisted => true
  }

  predicate ExactlyOne(verdicts: seq<bool>) {
    true in verdicts && forall i, j | 0 <= i < j < |verdicts| :: !(verdicts[i] && verdicts[j])
  }

  /** What each of the listed schemas says. */
  function Verdicts(sem: Semantics, value: Json, doc: Json): seq<bool>
    requires value.Arr?
    decreases value, 0
  {
    seq(|value.items|, i requires 0 <= i < |value.items| => Accepts(sem, value.items[i], doc))
  }

  function UnlistedOf(node: map<string, Json>): map<string, Json> {
    map key | key in node && KindOf(key) == Unlisted :: node[key]
  }

  /** The unlisted keywords, of which there may be none. */
  predicate AcceptsOther(sem: Semantics, unlisted: map<string, Json>, doc: Json) {
    unlisted == map[] || sem.other(unlisted, doc)
  }

  predicate Accepts(sem: Semantics, schema: Json, doc: Json)
    decreases schema, 1
  {
    match schema
    case Bool(value) => value
    case Obj(node) =>
      AcceptsOther(sem, UnlistedOf(node), doc) &&
      forall key | key in node :: AcceptsField(sem, key, node[key], BesideOf(node), doc)
    case _ => false
  }

  // ---------------------------------------------------------------------
  // One fold
  // ---------------------------------------------------------------------

  function Siblings(node: map<string, Json>): map<string, Json> {
    node - {ONE_OF}
  }

  /** The keyword reads the same beside either. */
  predicate ReadsSame(key: string, a: Beside, b: Beside) {
    match KindOf(key)
    case AdditionalProperties => a.declared == b.declared && a.patterns == b.patterns
    case Items => a.prefix == b.prefix
    case _ => true
  }

  /** The siblings that the branch does not overwrite. */
  function Kept(node: map<string, Json>): map<string, Json>
    requires Folds(node)
  {
    Siblings(node) - Branch(node).Keys
  }

  /**
   In the merged node each keyword reads beside it what it read before, and the
   unlisted keywords all come from one side.
   */
  predicate Decoupled(node: map<string, Json>)
    requires Folds(node)
  {
    var branch, merged := Branch(node), BesideOf(MergeNullableOneOf(node));
    && (forall key | key in Kept(node) :: ReadsSame(key, BesideOf(node), merged))
    && (forall key | key in branch :: ReadsSame(key, BesideOf(branch), merged))
    && (forall key | key in Siblings(node) && key in branch :: KindOf(key) != Unlisted)
    && (UnlistedOf(Kept(node)) == map[] || UnlistedOf(branch) == map[])
  }

  predicate KeptAccept(sem: Semantics, node: map<string, Json>, doc: Json)
    requires Folds(node)
  {
    AcceptsOther(sem, UnlistedOf(Kept(node)), doc) &&
    forall key | key in Kept(node) :: AcceptsField(sem, key, node[key], BesideOf(node), doc)
  }

  predicate OverwrittenAccept(sem: Semantics, node: map<string, Json>, doc: Json)
    requires Folds(node)
  {
    forall key | key in Siblings(node) && key in Branch(node) :: AcceptsField(sem, key, node[key], BesideOf(node), doc)
  }

  /** Everything asserted beside the `oneOf`. */
  predicate SiblingsAccept(sem: Semantics, node: map<string, Json>, doc: Json) {
    AcceptsOther(sem, UnlistedOf(Siblings(node)), doc) &&
    forall key | key in Siblings(node) :: AcceptsField(sem, key, node[key], BesideOf(node), doc)
  }

  /** Everything a branch asserts beside its type. */
  predicate Rest(sem: Semantics, branch: map<string, Json>, doc: Json) {
    AcceptsOther(sem, UnlistedOf(branch), doc) &&
    forall key | key in branch && key != TYPE :: AcceptsField(sem, key, branch[key], BesideOf(branch), doc)
  }

  lemma NullTypeMeans(doc: Json)
    ensures HasType(doc, NULL_TYPE) <==> doc.Null?
  {
    assert |NULL_TYPE| == 4;
  }

  lemma NullSchemaMeans(sem: Semantics, doc: Json)
    ensures Accepts(sem, NULL_SCHEMA, doc) <==> doc.Null?
  {
    hide KindOf, HasType;
    NullTypeMeans(doc);
    var node := NULL_SCHEMA.fields;
    assert UnlistedOf(node) == map[];
    assert AcceptsField(sem, TYPE, node[TYPE], BesideOf(node), doc) <==> HasType(doc, NULL_TYPE);
  }

  lemma BranchMeans(sem: Semantics, branch: map<string, Json>, doc: Json)
    requires TYPE in branch && branch[TYPE].Str?
    ensures Accepts(sem, Obj(branch), doc) <==> HasType(doc, branch[TYPE].text) && Rest(sem, branch, doc)
  {
    hide KindOf, HasType, AcceptsOther, BesideOf, UnlistedOf;
    assert AcceptsField(sem, TYPE, branch[TYPE], BesideOf(branch), doc) <==> HasType(doc, branch[TYPE].text);
  }

  lemma OneOfTwo(a: bool, b: bool)
    ensures ExactlyOne([a, b]) <==> a != b
  {
    assert [a, b][0] == a && [a, b][1] == b;
  }

  lemma SiblingsUnlisted(node: map<string, Json>)
    ensures UnlistedOf(Siblings(node)) == UnlistedOf(node)
  {
    hide KindOf;
  }

  lemma OneOfMeans(sem: Semantics, node: map<string, Json>, doc: Json)
    requires ONE_OF in node && node[ONE_OF].Arr?
    ensures Accepts(sem, Obj(node), doc) <==>
      SiblingsAccept(sem, node, doc) && ExactlyOne(Verdicts(sem, node[ONE_OF], doc))
  {
    hide KindOf, AcceptsOther, BesideOf, UnlistedOf, ExactlyOne, Verdicts;
    SiblingsUnlisted(node);
    assert AcceptsField(sem, ONE_OF, node[ONE_OF], BesideOf(node), doc) <==>
      ExactlyOne(Verdicts(sem, node[ONE_OF], doc));
    assert forall key :: key in node <==> key in Siblings(node) || key == ONE_OF;
  }

  lemma NodeMeans(sem: Semantics, node: map<string, Json>, doc: Json)
    requires Folds(node)
    ensures Accepts(sem, Obj(node), doc) <==>
      SiblingsAccept(sem, node, doc) && Accepts(sem, Obj(Branch(node)), doc) != doc.Null?
  {
    hide Accepts, SiblingsAccept;
    NullSchemaMeans(sem, doc);
    OneOfMeans(sem, node, doc);
    var variants, verdicts := node[ONE_OF].items, Verdicts(sem, node[ONE_OF], doc);
    assert verdicts == [Accepts(sem, variants[0], doc), Accepts(sem, variants[1], doc)];
    OneOfTwo(verdicts[0], verdicts[1]);
    assert Other(variants) == Obj(Branch(node));
  }

  lemma NullableMeans(branch: map<string, Json>, doc: Json)
    requires TYPE in branch && branch[TYPE].Str?
    ensures AcceptsType(NullableType(branch), doc) <==> HasType(doc, branch[TYPE].text) || doc.Null?
  {
    hide HasType;
    var names := [branch[TYPE], Str(NULL_TYPE)];
    forall name ensures name in NullableType(branch).items <==> name in names { SortedKeepsItems(names, name); }
    assert branch[TYPE] in names && Str(NULL_TYPE) in names;
    NullTypeMeans(doc);
  }

  lemma ReadsSameMeans(sem: Semantics, key: string, value: Json, a: Beside, b: Beside, doc: Json)
    requires ReadsSame(key, a, b)
    ensures AcceptsField(sem, key, value, a, doc) <==> AcceptsField(sem, key, value, b, doc)
  {
    hide KindOf, Accepts, Verdicts, AcceptsType, AcceptsRequired, ExactlyOne;
  }

  lemma SiblingsSplit(sem: Semantics, node: map<string, Json>, doc: Json)
    requires Folds(node) && Decoupled(node)
    ensures SiblingsAccept(sem, node, doc) <==> KeptAccept(sem, node, doc) && OverwrittenAccept(sem, node, doc)
  {
    assert UnlistedOf(Siblings(node)) == UnlistedOf(Kept(node)) by {
      hide KindOf, ReadsSame, BesideOf, Folds, MergeNullableOneOf;
    }
    hide Folds, Decoupled, UnlistedOf, AcceptsField, BesideOf, AcceptsOther;
    assert forall key :: key in Siblings(node) <==> key in Kept(node) || (key in Siblings(node) && key in Branch(node));
  }

  /** The fields of a merged node: the branch's, its type made nullable, and the kept siblings'. */
  lemma MergedFields(node: map<string, Json>, key: string)
    requires Folds(node)
    ensures var branch, merged := Branch(node), MergeNullableOneOf(node);
      && (key in merged <==> key in branch || key in Kept(node))
      && (key in Kept(node) ==> key in node && key !in branch)
      && (key in branch && key != TYPE ==> merged[key] == branch[key])
      && (key in Kept(node) ==> merged[key] == node[key])
      && TYPE in branch && TYPE in merged && merged[TYPE] == NullableType(branch)
  {
  }

  lemma UnlistedUnion(a: map<string, Json>, b: map<string, Json>)
    ensures UnlistedOf(a + b) == UnlistedOf(a) + UnlistedOf(b)
  {
    hide KindOf;
  }

  lemma UnlistedWithoutType(node: map<string, Json>, value: Json)
    ensures UnlistedOf(node[TYPE := value]) == UnlistedOf(node)
  {
    hide KindOf;
  }

  lemma MergedUnlisted(node: map<string, Json>)
    requires Folds(node)
    ensures UnlistedOf(MergeNullableOneOf(node)) == UnlistedOf(Kept(node)) + UnlistedOf(Branch(node))
  {
    hide UnlistedOf, Branch, Folds;
    var branch := Branch(node);
    MergedFields(node, TYPE);
    UnlistedWithoutType(branch, NullableType(branch));
    assert MergeNullableOneOf(node) == Kept(node) + branch[TYPE := NullableType(branch)];
    UnlistedUnion(Kept(node), branch[TYPE := NullableType(branch)]);
  }

  lemma OtherUnion(sem: Semantics, a: map<string, Json>, b: map<string, Json>, doc: Json)
    requires a == map[] || b == map[]
    ensures AcceptsOther(sem, a + b, doc) <==> AcceptsOther(sem, a, doc) && AcceptsOther(sem, b, doc)
  {
    if a == map[] {
      assert a + b == b;
    } else {
      assert a + b == a;
    }
  }

  lemma UnlistedApart(node: map<string, Json>)
    requires Folds(node) && Decoupled(node)
    ensures UnlistedOf(Kept(node)) == map[] || UnlistedOf(Branch(node)) == map[]
  {
    hide UnlistedOf, BesideOf, KindOf, Folds, ReadsSame;
  }

  lemma MergedOther(sem: Semantics, node: map<string, Json>, doc: Json)
    requires Folds(node) && Decoupled(node)
    ensures AcceptsOther(sem, UnlistedOf(MergeNullableOneOf(node)), doc) <==>
      AcceptsOther(sem, UnlistedOf(Kept(node)), doc) && AcceptsOther(sem, UnlistedOf(Branch(node)), doc)
  {
    hide *;
    UnlistedApart(node);
    MergedUnlisted(node);
    OtherUnion(sem, UnlistedOf(Kept(node)), UnlistedOf(Branch(node)), doc);
  }

  lemma MergedReads(node: map<string, Json>, key: string)
    requires Folds(node) && Decoupled(node)
    ensures var merged := BesideOf(MergeNullableOneOf(node));
      && (key in Branch(node) ==> ReadsSame(key, BesideOf(Branch(node)), merged))
      && (key in Kept(node) ==> ReadsSame(key, BesideOf(node), merged))
  {
    hide UnlistedOf, BesideOf, KindOf, Folds, ReadsSame, Kept;
  }

  /** A field of the merged node asserts what it did where it came from. */
  lemma MergedField(sem: Semantics, node: map<string, Json>, key: string, doc: Json)
    requires Folds(node) && Decoupled(node) && key != TYPE && key in MergeNullableOneOf(node)
    ensures key in Kept(node) ==> key in node
    ensures var branch, merged := Branch(node), MergeNullableOneOf(node);
      AcceptsField(sem, key, merged[key], BesideOf(merged), doc) <==>
      && (key in branch ==> AcceptsField(sem, key, branch[key], BesideOf(branch), doc))
      && (key in Kept(node) ==> AcceptsField(sem, key, node[key], BesideOf(node), doc))
  {
    hide *;
    var branch, merged := Branch(node), MergeNullableOneOf(node);
    MergedFields(node, key);
    MergedReads(node, key);
    if key in branch {
      ReadsSameMeans(sem, key, branch[key], BesideOf(branch), BesideOf(merged), doc);
    } else {
      ReadsSameMeans(sem, key, node[key], BesideOf(node), BesideOf(merged), doc);
    }
  }

  lemma MergedListed(sem: Semantics, node: map<string, Json>, doc: Json)
    requires Folds(node) && Decoupled(node)
    ensures var branch, merged := Branch(node), MergeNullableOneOf(node);
      TYPE in branch && (forall key | key in Kept(node) :: key in node) &&
      ((forall key | key in merged :: AcceptsField(sem, key, merged[key], BesideOf(merged), doc)) <==>
       && AcceptsType(NullableType(branch), doc)
       && (forall key | key in branch && key != TYPE :: AcceptsField(sem, key, branch[key], BesideOf(branch), doc))
       && (forall key | key in Kept(node) :: AcceptsField(sem, key, node[key], BesideOf(node), doc)))
  {
    hide *;
    var branch, merged := Branch(node), MergeNullableOneOf(node);
    MergedFields(node, TYPE);
    TypeField(sem, merged, doc);
    forall key
      ensures key in merged <==> key in branch || key in Kept(node)
      ensures key in Kept(node) ==> key in node && key !in branch
    {
      MergedFields(node, key);
    }
    forall key | key in merged && key != TYPE
      ensures AcceptsField(sem, key, merged[key], BesideOf(merged), doc) <==>
        && (key in branch ==> AcceptsField(sem, key, branch[key], BesideOf(branch), doc))
        && (key in Kept(node) ==> AcceptsField(sem, key, node[key], BesideOf(node), doc))
    {
      MergedField(sem, node, key, doc);
    }
  }

  lemma TypeField(sem: Semantics, node: map<string, Json>, doc: Json)
    requires TYPE in node
    ensures AcceptsField(sem, TYPE, node[TYPE], BesideOf(node), doc) <==> AcceptsType(node[TYPE], doc)
  {
    hide KindOf, AcceptsType, BesideOf;
  }

  lemma BranchType(node: map<string, Json>)
    requires Folds(node)
    ensures TYPE in Branch(node) && Branch(node)[TYPE].Str?
  {
  }

  lemma ObjectMeans(sem: Semantics, node: map<string, Json>, doc: Json)
    ensures Accepts(sem, Obj(node), doc) <==>
      AcceptsOther(sem, UnlistedOf(node), doc) &&
      forall key | key in node :: AcceptsField(sem, key, node[key], BesideOf(node), doc)
  {
    hide AcceptsOther, UnlistedOf, AcceptsField, BesideOf;
  }

  lemma KeptMeans(sem: Semantics, node: map<string, Json>, doc: Json)
    requires Folds(node) && forall key | key in Kept(node) :: key in node
    ensures KeptAccept(sem, node, doc) <==>
      AcceptsOther(sem, UnlistedOf(Kept(node)), doc) &&
      forall key | key in Kept(node) :: AcceptsField(sem, key, node[key], BesideOf(node), doc)
  {
    hide AcceptsOther, UnlistedOf, AcceptsField, BesideOf, Kept, Folds;
  }

  lemma RestMeans(sem: Semantics, branch: map<string, Json>, doc: Json)
    ensures Rest(sem, branch, doc) <==>
      AcceptsOther(sem, UnlistedOf(branch), doc) &&
      forall key | key in branch && key != TYPE :: AcceptsField(sem, key, branch[key], BesideOf(branch), doc)
  {
    hide AcceptsOther, UnlistedOf, AcceptsField, BesideOf;
  }

  lemma MergedMeans(sem: Semantics, node: map<string, Json>, doc: Json)
    requires Folds(node) && Decoupled(node)
    ensures TYPE in Branch(node) && Branch(node)[TYPE].Str?
    ensures var branch := Branch(node);
      Accepts(sem, Obj(MergeNullableOneOf(node)), doc) <==>
      KeptAccept(sem, node, doc) && (HasType(doc, branch[TYPE].text) || doc.Null?) && Rest(sem, branch, doc)
  {
    hide *;
    BranchType(node);
    MergedOther(sem, node, doc);
    MergedListed(sem, node, doc);
    NullableMeans(Branch(node), doc);
    var branch, merged := Branch(node), MergeNullableOneOf(node);
    ObjectMeans(sem, merged, doc);
    KeptMeans(sem, node, doc);
    RestMeans(sem, branch, doc);
  }

  /** What both spellings say of null is the same. */
  predicate NullAgrees(sem: Semantics, node: map<string, Json>)
    requires Folds(node)
  {
    var branch := Branch(node);
    KeptAccept(sem, node, Null) && Rest(sem, branch, Null) <==>
    SiblingsAccept(sem, node, Null) && !(branch[TYPE] == Str(NULL_TYPE) && Rest(sem, branch, Null))
  }

  /** What the branch accepts, beside the kept siblings, satisfies the overwritten ones too. */
  ghost predicate OverwrittenImplied(sem: Semantics, node: map<string, Json>)
    requires Folds(node)
  {
    forall doc: Json | !doc.Null? && KeptAccept(sem, node, doc) && Accepts(sem, Obj(Branch(node)), doc) ::
      OverwrittenAccept(sem, node, doc)
  }

  /** The node says of the document what it says once it is folded. */
  predicate SameOf(sem: Semantics, node: map<string, Json>, doc: Json) {
    Accepts(sem, Obj(MergeNullableOneOf(node)), doc) <==> Accepts(sem, Obj(node), doc)
  }

  ghost predicate SameDocuments(sem: Semantics, node: map<string, Json>) {
    forall doc :: SameOf(sem, node, doc)
  }

  lemma FoldMeans(sem: Semantics, node: map<string, Json>, doc: Json)
    requires Folds(node) && Decoupled(node)
    ensures SameOf(sem, node, doc) <==>
      if doc.Null? then NullAgrees(sem, node)
      else KeptAccept(sem, node, doc) && Accepts(sem, Obj(Branch(node)), doc) ==> OverwrittenAccept(sem, node, doc)
  {
    BranchType(node);
    hide Accepts, Rest, MergeNullableOneOf, Decoupled, SiblingsAccept, KeptAccept, OverwrittenAccept, Folds, Branch;
    NodeMeans(sem, node, doc);
    BranchMeans(sem, Branch(node), doc);
    MergedMeans(sem, node, doc);
    SiblingsSplit(sem, node, doc);
    NullTypeMeans(doc);
  }

  /**
   The fold accepts the same documents exactly when it does so for null and what the
   branch accepts never needed the siblings that it overwrites.
   */
  lemma FoldExact(sem: Semantics, node: map<string, Json>)
    requires Folds(node) && Decoupled(node)
    ensures SameDocuments(sem, node) <==> FoldIsSafe(sem, node)
  {
    hide Accepts, SameOf, NullAgrees, Folds, KeptAccept, OverwrittenAccept, Decoupled, Branch;
    if FoldIsSafe(sem, node) {
      forall doc ensures SameOf(sem, node, doc) { FoldMeans(sem, node, doc); }
    }
    if SameDocuments(sem, node) {
      assert SameOf(sem, node, Null);
      FoldMeans(sem, node, Null);
      forall doc: Json | !doc.Null? && KeptAccept(sem, node, doc) && Accepts(sem, Obj(Branch(node)), doc)
        ensures OverwrittenAccept(sem, node, doc)
      {
        assert SameOf(sem, node, doc);
        FoldMeans(sem, node, doc);
      }
    }
  }

  ghost predicate FoldIsSafe(sem: Semantics, node: map<string, Json>)
    requires Folds(node)
  {
    Decoupled(node) && NullAgrees(sem, node) && OverwrittenImplied(sem, node)
  }

  lemma FoldKeepsMeaning(sem: Semantics, node: map<string, Json>, doc: Json)
    requires Folds(node) && FoldIsSafe(sem, node)
    ensures Accepts(sem, Obj(MergeNullableOneOf(node)), doc) <==> Accepts(sem, Obj(node), doc)
  {
    hide Accepts, MergeNullableOneOf, NullAgrees, Folds, KeptAccept, OverwrittenAccept, Decoupled, Branch;
    FoldMeans(sem, node, doc);
  }

  // Folds that overwrite annotations only.

  /** The branch and the siblings share annotations only. */
  predicate Apart(node: map<string, Json>)
    requires Folds(node)
  {
    Decoupled(node) && forall key | key in Siblings(node) && key in Branch(node) :: KindOf(key) == Annotation
  }

  /** Where the siblings let null through, so does the branch, and not by its type. */
  predicate NullPasses(sem: Semantics, node: map<string, Json>)
    requires Folds(node)
  {
    SiblingsAccept(sem, node, Null) ==> Branch(node)[TYPE] != Str(NULL_TYPE) && Rest(sem, Branch(node), Null)
  }

  lemma ApartOverwrites(sem: Semantics, node: map<string, Json>, doc: Json)
    requires Folds(node) && Apart(node)
    ensures OverwrittenAccept(sem, node, doc) && (SiblingsAccept(sem, node, doc) <==> KeptAccept(sem, node, doc))
  {
    hide KindOf, Folds, Decoupled, BesideOf, KeptAccept, SiblingsAccept;
    SiblingsSplit(sem, node, doc);
  }

  /**
   Where branch and siblings share annotations only, the fold is safe exactly when
   the siblings reject null, or the branch is not itself the null type and asserts
   nothing that null fails.
   */
  lemma ApartFoldExact(sem: Semantics, node: map<string, Json>)
    requires Folds(node) && Apart(node)
    ensures FoldIsSafe(sem, node) <==> NullPasses(sem, node)
  {
    forall doc ensures OverwrittenAccept(sem, node, doc) { ApartOverwrites(sem, node, doc); }
    ApartOverwrites(sem, node, Null);
    hide KindOf, Folds, Decoupled, KeptAccept, SiblingsAccept, OverwrittenAccept, Rest, Accepts;
  }

  /** Beside the `oneOf` stand annotations only. */
  predicate PlainSiblings(node: map<string, Json>) {
    forall key | key in node :: key == ONE_OF || KindOf(key) == Annotation
  }

  lemma PlainBeside(node: map<string, Json>)
    requires Folds(node) && PlainSiblings(node)
    ensures BesideOf(MergeNullableOneOf(node)) == BesideOf(Branch(node))
  {
    hide KindOf, Folds, MergeNullableOneOf, Branch;
    assert PROPERTIES !in Kept(node) && PATTERN_PROPERTIES !in Kept(node) && PREFIX_ITEMS !in Kept(node);
    MergedFields(node, PROPERTIES);
    MergedFields(node, PATTERN_PROPERTIES);
    MergedFields(node, PREFIX_ITEMS);
    LongKeys();
  }

  lemma ReadsWhatever(key: string, a: Beside, b: Beside)
    requires a == b || KindOf(key) == Annotation
    ensures ReadsSame(key, a, b)
  {
    hide KindOf;
  }

  lemma PlainUnlisted(node: map<string, Json>)
    requires Folds(node) && PlainSiblings(node)
    ensures UnlistedOf(Kept(node)) == map[] && UnlistedOf(Siblings(node)) == map[]
  {
    hide KindOf, Folds, Branch;
  }

  lemma PlainKeys(node: map<string, Json>, key: string)
    requires PlainSiblings(node) && key in Siblings(node)
    ensures KindOf(key) == Annotation
  {
    hide KindOf;
  }

  lemma PlainIsApart(sem: Semantics, node: map<string, Json>)
    requires Folds(node) && PlainSiblings(node)
    ensures Apart(node)
  {
    PlainBeside(node);
    PlainUnlisted(node);
    hide KindOf, Folds, MergeNullableOneOf, Branch, BesideOf, UnlistedOf, ReadsSame, PlainSiblings, Siblings;
    var merged := BesideOf(MergeNullableOneOf(node));
    forall key | key in Siblings(node) ensures KindOf(key) == Annotation && ReadsSame(key, BesideOf(node), merged) {
      PlainKeys(node, key);
      ReadsWhatever(key, BesideOf(node), merged);
    }
    forall key | key in Branch(node) ensures ReadsSame(key, BesideOf(Branch(node)), merged) {
      ReadsWhatever(key, BesideOf(Branch(node)), merged);
    }
  }

  lemma AnnotationAccepts(sem: Semantics, key: string, value: Json, beside: Beside, doc: Json)
    requires KindOf(key) == Annotation
    ensures AcceptsField(sem, key, value, beside, doc)
  {
    hide KindOf;
  }

  lemma PlainAccept(sem: Semantics, node: map<string, Json>, doc: Json)
    requires Folds(node) && PlainSiblings(node)
    ensures SiblingsAccept(sem, node, doc)
  {
    PlainUnlisted(node);
    hide KindOf, Folds, BesideOf, UnlistedOf, AcceptsField, PlainSiblings;
    forall key | key in Siblings(node) ensures AcceptsField(sem, key, node[key], BesideOf(node), doc) {
      PlainKeys(node, key);
      AnnotationAccepts(sem, key, node[key], BesideOf(node), doc);
    }
  }

  lemma LongKeys()
    ensures TYPE !in {PROPERTIES, PATTERN_PROPERTIES, PREFIX_ITEMS}
    ensures REQUIRED !in {PROPERTIES, PATTERN_PROPERTIES, PREFIX_ITEMS}
  {
    assert |TYPE| == 4 && |REQUIRED| == 8 && |PROPERTIES| == 10 && |PATTERN_PROPERTIES| == 17 && |PREFIX_ITEMS| == 11;
  }

  /** With annotations only beside it, the branch alone decides. */
  lemma PlainFoldExact(sem: Semantics, node: map<string, Json>)
    requires Folds(node) && PlainSiblings(node)
    ensures FoldIsSafe(sem, node) <==> Branch(node)[TYPE] != Str(NULL_TYPE) && Rest(sem, Branch(node), Null)
  {
    hide FoldIsSafe, Apart, Rest, PlainSiblings, SiblingsAccept;
    PlainIsApart(sem, node);
    PlainAccept(sem, node, Null);
    ApartFoldExact(sem, node);
  }

  /** Keywords that speak of one type of document and let null through. */
  predicate IsTypeSpecific(key: string, value: Json) {
    match KindOf(key)
    case Required => value.Arr?
    case Properties => value.Obj?
    case PatternProperties => value.Obj?
    case AdditionalProperties => true
    case PrefixItems => value.Arr?
    case Items => true
    case Annotation => true
    case Unlisted => true
    case _ => false
  }

  /** A branch of a non-null type with type-specific keywords only may be folded. */
  lemma TypeSpecificFoldIsSafe(sem: Semantics, node: map<string, Json>)
    requires Folds(node) && Apart(node) && Branch(node)[TYPE] != Str(NULL_TYPE)
    requires forall key | key in Branch(node) && key != TYPE :: IsTypeSpecific(key, Branch(node)[key])
    requires AcceptsOther(sem, UnlistedOf(Branch(node)), Null)
    ensures FoldIsSafe(sem, node)
  {
    hide KindOf, Folds, Apart, UnlistedOf, BesideOf;
    var branch := Branch(node);
    forall key | key in branch && key != TYPE ensures AcceptsField(sem, key, branch[key], BesideOf(branch), Null) {
      assert IsTypeSpecific(key, branch[key]);
    }
    ApartFoldExact(sem, node);
  }

  // ---------------------------------------------------------------------
  // Whole schemas
  // ---------------------------------------------------------------------

  /** The value has the form its keyword asks for, and every schema in it is safe. */
  ghost predicate SafeField(sem: Semantics, key: string, value: Json)
    decreases value, 2
  {
    match KindOf(key)
    case Type => value.Str? || (value.Arr? && AllStrings(value.items))
    case Required => value.Arr? && AllStrings(value.items)
    case OneOf => value.Arr? && forall i | 0 <= i < |value.items| :: Safe(sem, value.items[i])
    case AnyOf => value.Arr? && forall i | 0 <= i < |value.items| :: Safe(sem, value.items[i])
    case AllOf => value.Arr? && forall i | 0 <= i < |value.items| :: Safe(sem, value.items[i])
    case PrefixItems => value.Arr? && forall i | 0 <= i < |value.items| :: Safe(sem, value.items[i])
    case Not => Safe(sem, value)
    case Properties => value.Obj? && forall p | p in value.fields :: Safe(sem, value.fields[p])
    case PatternProperties => value.Obj? && forall p | p in value.fields :: Safe(sem, value.fields[p])
    case AdditionalProperties => Safe(sem, value)
    case Items => Safe(sem, value)
    case Enum => Canonical(value) == value
    case Const => Canonical(value) == value
    case Annotation => true
    case Unlisted => Canonical(value) == value
  }

  /** A schema in which each fold is safe. */
  ghost predicate Safe(sem: Semantics, schema: Json)
    decreases schema, 1
  {
    match schema
    case Bool(_) => true
    case Obj(node) =>
      && (forall key | key in node :: SafeField(sem, key, node[key]))
      && (Folds(CanonicalFields(schema)) ==> FoldIsSafe(sem, CanonicalFields(schema)))
    case _ => false
  }

  // The same told from the text, for schemas whose folds are all of the usual kind.

  /** The branch is not the null type, and its keywords speak of other types of documents. */
  predicate TextFold(specific: set<string>, node: map<string, Json>) {
    Folds(node) ==>
      Apart(node) && Branch(node)[TYPE] != Str(NULL_TYPE) && UnlistedOf(Branch(node)).Keys <= specific &&
      forall key | key in Branch(node) && key != TYPE :: IsTypeSpecific(key, Branch(node)[key])
  }

  predicate TextSafeField(specific: set<string>, key: string, value: Json)
    decreases value, 2
  {
    match KindOf(key)
    case Type => value.Str? || (value.Arr? && AllStrings(value.items))
    case Required => value.Arr? && AllStrings(value.items)
    case Annotation => true
    case Enum => Canonical(value) == value
    case Const => Canonical(value) == value
    case Unlisted => Canonical(value) == value
    case Not => TextSafe(specific, value)
    case AdditionalProperties => TextSafe(specific, value)
    case Items => TextSafe(specific, value)
    case Properties => value.Obj? && forall p | p in value.fields :: TextSafe(specific, value.fields[p])
    case PatternProperties => value.Obj? && forall p | p in value.fields :: TextSafe(specific, value.fields[p])
    case _ => value.Arr? && forall i | 0 <= i < |value.items| :: TextSafe(specific, value.items[i])
  }

  predicate TextSafe(specific: set<string>, schema: Json)
    decreases schema, 1
  {
    match schema
    case Bool(_) => true
    case Obj(node) =>
      (forall key | key in node :: TextSafeField(specific, key, node[key])) &&
      TextFold(specific, CanonicalFields(schema))
    case _ => false
  }

  /** The unlisted keywords of these names let null through. */
  ghost predicate SparesNull(sem: Semantics, specific: set<string>) {
    forall unlisted: map<string, Json> | unlisted.Keys <= specific :: AcceptsOther(sem, unlisted, Null)
  }

  lemma TextFoldIsSafe(sem: Semantics, specific: set<string>, node: map<string, Json>)
    requires SparesNull(sem, specific) && TextFold(specific, node) && Folds(node)
    ensures FoldIsSafe(sem, node)
  {
    hide KindOf, Folds, Apart, UnlistedOf, FoldIsSafe, IsTypeSpecific, AcceptsOther, Branch;
    assert AcceptsOther(sem, UnlistedOf(Branch(node)), Null);
    TypeSpecificFoldIsSafe(sem, node);
  }

  lemma {:induction false} TextSafeFieldIsSafe(sem: Semantics, specific: set<string>, key: string, value: Json)
    requires SparesNull(sem, specific) && TextSafeField(specific, key, value)
    ensures SafeField(sem, key, value)
    decreases value, 2
  {
    hide SparesNull, KindOf, Canonical;
    match KindOf(key)
    case Not | AdditionalProperties | Items => TextSafeIsSafe(sem, specific, value);
    case Properties | PatternProperties =>
      forall p | p in value.fields ensures Safe(sem, value.fields[p]) {
        TextSafeIsSafe(sem, specific, value.fields[p]);
      }
    case OneOf | AnyOf | AllOf | PrefixItems =>
      forall i | 0 <= i < |value.items| ensures Safe(sem, value.items[i]) {
        TextSafeIsSafe(sem, specific, value.items[i]);
      }
    case _ =>
  }

  /** A schema that looks safe is safe, whatever the unlisted keywords mean that spare null. */
  lemma {:induction false} TextSafeIsSafe(sem: Semantics, specific: set<string>, schema: Json)
    requires SparesNull(sem, specific) && TextSafe(specific, schema)
    ensures Safe(sem, schema)
    decreases schema, 1
  {
    hide SparesNull, KindOf, TextSafeField, SafeField, Folds, FoldIsSafe, TextFold, CanonicalFields;
    if schema.Obj? {
      forall key | key in schema.fields ensures SafeField(sem, key, schema.fields[key]) {
        assert TextSafeField(specific, key, schema.fields[key]);
        TextSafeFieldIsSafe(sem, specific, key, schema.fields[key]);
      }
      if Folds(CanonicalFields(schema)) { TextFoldIsSafe(sem, specific, CanonicalFields(schema)); }
    }
  }

  lemma SortedTypeMeans(items: seq<Json>, doc: Json)
    ensures AcceptsType(Arr(Sorted(items)), doc) <==> AcceptsType(Arr(items), doc)
  {
    hide HasType, Sorted;
    forall name ensures name in Sorted(items) <==> name in items { SortedKeepsItems(items, name); }
  }

  lemma SortTypeKeepsRest(node: map<string, Json>)
    ensures BesideOf(SortType(node)) == BesideOf(node) && UnlistedOf(SortType(node)) == UnlistedOf(node)
    ensures SortType(node).Keys == node.Keys
    ensures forall key | key in node && key != TYPE :: SortType(node)[key] == node[key]
  {
    hide KindOf, Sorted;
    LongKeys();
  }

  lemma SortTypeMeans(sem: Semantics, node: map<string, Json>, doc: Json)
    ensures Accepts(sem, Obj(SortType(node)), doc) <==> Accepts(sem, Obj(node), doc)
  {
    hide KindOf, AcceptsType, Sorted, BesideOf, UnlistedOf, AcceptsOther;
    var typed := SortType(node);
    SortTypeKeepsRest(node);
    if typed != node {
      SortedTypeMeans(node[TYPE].items, doc);
      assert AcceptsField(sem, TYPE, typed[TYPE], BesideOf(node), doc)
        <==> AcceptsField(sem, TYPE, node[TYPE], BesideOf(node), doc);
      assert forall key | key in node && key != TYPE :: typed[key] == node[key];
    }
  }

  lemma CanonicalArray(x: Json)
    requires x.Arr?
    ensures Canonical(x).Arr? && |Canonical(x).items| == |x.items|
    ensures forall i | 0 <= i < |x.items| :: Canonical(x).items[i] == Canonical(x.items[i])
  {
  }

  lemma SchemaShape(sem: Semantics, schema: Json)
    requires Safe(sem, schema)
    ensures !schema.Arr? && !Canonical(schema).Arr?
  {
  }

  /** A map of schemas is canonicalised member by member, whatever their names are. */
  lemma CanonicalProperties(sem: Semantics, x: Json)
    requires x.Obj? && forall p | p in x.fields :: Safe(sem, x.fields[p])
    ensures Canonical(x).Obj? && Canonical(x).fields == CanonicalFields(x)
    ensures forall p | p in x.fields :: CanonicalFields(x)[p] == Canonical(x.fields[p])
  {
    hide Safe;
    var fields := CanonicalFields(x);
    forall p | p in x.fields ensures fields[p] == Canonical(x.fields[p]) && !fields[p].Arr? {
      assert fields[p] == CanonicalField(p, x.fields[p]);
      SchemaShape(sem, x.fields[p]);
    }
    assert !Folds(fields);
  }

  lemma NamesAreKept(sem: Semantics, schema: Json, key: string)
    requires schema.Obj? && Safe(sem, schema) && key in {PROPERTIES, PATTERN_PROPERTIES}
    ensures NamesIn(CanonicalFields(schema), key) == NamesIn(schema.fields, key)
  {
    var node, fields := schema.fields, CanonicalFields(schema);
    LongKeys();
    if key in node {
      assert SafeField(sem, key, node[key]);
      hide Safe, Canonical, SafeField, KindOf;
      CanonicalProperties(sem, node[key]);
      assert fields[key] == CanonicalField(key, node[key]) == Canonical(node[key]);
    }
  }

  lemma PrefixIsKept(sem: Semantics, schema: Json)
    requires schema.Obj? && PREFIX_ITEMS in schema.fields
    ensures CanonicalFields(schema)[PREFIX_ITEMS] == Canonical(schema.fields[PREFIX_ITEMS])
  {
    LongKeys();
    assert CanonicalFields(schema)[PREFIX_ITEMS] == CanonicalField(PREFIX_ITEMS, schema.fields[PREFIX_ITEMS]);
  }

  lemma BesideIsKept(sem: Semantics, schema: Json)
    requires schema.Obj? && Safe(sem, schema)
    ensures BesideOf(CanonicalFields(schema)) == BesideOf(schema.fields)
  {
    hide Safe, Canonical;
    NamesAreKept(sem, schema, PROPERTIES);
    NamesAreKept(sem, schema, PATTERN_PROPERTIES);
    if PREFIX_ITEMS in schema.fields {
      PrefixIsKept(sem, schema);
      CanonicalKeepsArrays(schema.fields[PREFIX_ITEMS]);
      if schema.fields[PREFIX_ITEMS].Arr? { CanonicalArray(schema.fields[PREFIX_ITEMS]); }
    }
  }

  lemma UnlistedFieldIsKept(sem: Semantics, schema: Json, key: string)
    requires schema.Obj? && Safe(sem, schema) && key in schema.fields && KindOf(key) == Unlisted
    ensures CanonicalFields(schema)[key] == schema.fields[key]
  {
    assert SafeField(sem, key, schema.fields[key]);
    assert CanonicalFields(schema)[key] == CanonicalField(key, schema.fields[key]);
  }

  lemma UnlistedIsKept(sem: Semantics, schema: Json)
    requires schema.Obj? && Safe(sem, schema)
    ensures UnlistedOf(CanonicalFields(schema)) == UnlistedOf(schema.fields)
  {
    hide KindOf, Canonical, Safe, CanonicalField;
    var node, fields := schema.fields, CanonicalFields(schema);
    assert fields.Keys == node.Keys;
    forall key | key in node && KindOf(key) == Unlisted ensures fields[key] == node[key] {
      UnlistedFieldIsKept(sem, schema, key);
    }
  }

  lemma RequiredKeepsMeaning(value: Json, doc: Json)
    requires value.Arr?
    ensures AcceptsRequired(Arr(Sorted(value.items)), doc) <==> AcceptsRequired(value, doc)
  {
    hide Sorted;
    forall name ensures name in Sorted(value.items) <==> name in value.items { SortedKeepsItems(value.items, name); }
  }

  /** The canonical value of a keyword asserts the same. */
  predicate Keeps(sem: Semantics, key: string, value: Json, beside: Beside, doc: Json) {
    AcceptsField(sem, key, CanonicalField(key, value), beside, doc) <==> AcceptsField(sem, key, value, beside, doc)
  }

  lemma PlainFieldKeeps(sem: Semantics, key: string, value: Json, beside: Beside, doc: Json)
    requires SafeField(sem, key, value) && KindOf(key) in {Type, Required, Enum, Const, Annotation, Unlisted}
    ensures Keeps(sem, key, value, beside, doc)
  {
    hide KindOf, Safe, Accepts, AcceptsType, AcceptsRequired, Canonical, Verdicts, ExactlyOne, Sorted, Additional;
    match KindOf(key)
    case Type => TypeIsKept(value);
    case Required => RequiredKeepsMeaning(value, doc);
    case _ =>
  }

  lemma {:induction false} ListFieldKeeps(sem: Semantics, key: string, value: Json, beside: Beside, doc: Json)
    requires SafeField(sem, key, value) && KindOf(key) in {OneOf, AnyOf, AllOf, PrefixItems}
    ensures Keeps(sem, key, value, beside, doc)
    decreases value, 2
  {
    hide KindOf, Safe, Accepts, Canonical, Verdicts, ExactlyOne, Sorted, Additional;
    VariantsKeepMeaning(sem, value, doc);
    PrefixKeepsMeaning(sem, value, doc);
  }

  lemma {:induction false} MapFieldKeeps(sem: Semantics, key: string, value: Json, beside: Beside, doc: Json)
    requires SafeField(sem, key, value) && KindOf(key) in {Properties, PatternProperties}
    ensures Keeps(sem, key, value, beside, doc)
    decreases value, 2
  {
    hide KindOf, Safe, Accepts, Canonical, Verdicts, ExactlyOne, Sorted, Additional;
    PropertiesKeepMeaning(sem, value, doc);
  }

  lemma {:induction false} SchemaFieldKeeps(sem: Semantics, key: string, value: Json, beside: Beside, doc: Json)
    requires SafeField(sem, key, value) && KindOf(key) in {Not, AdditionalProperties, Items}
    ensures Keeps(sem, key, value, beside, doc)
    decreases value, 2
  {
    hide KindOf, Safe, Accepts, Canonical, Verdicts, ExactlyOne, Sorted, Additional;
    CanonicalKeepsMeaning(sem, value, doc);
    MembersKeepMeaning(sem, value, doc);
  }

  lemma {:induction false} FieldKeepsMeaning(sem: Semantics, key: string, value: Json, beside: Beside, doc: Json)
    requires SafeField(sem, key, value)
    ensures Keeps(sem, key, value, beside, doc)
    decreases value, 3
  {
    hide KindOf, SafeField, Keeps;
    match KindOf(key) {
      case OneOf | AnyOf | AllOf | PrefixItems => ListFieldKeeps(sem, key, value, beside, doc);
      case Properties | PatternProperties => MapFieldKeeps(sem, key, value, beside, doc);
      case Not | AdditionalProperties | Items => SchemaFieldKeeps(sem, key, value, beside, doc);
      case _ => PlainFieldKeeps(sem, key, value, beside, doc);
    }
  }

  lemma TypeIsKept(value: Json)
    requires value.Str? || (value.Arr? && AllStrings(value.items))
    ensures Canonical(value) == value
  {
    if value.Arr? {
      CanonicalArray(value);
      assert Canonical(value).items == value.items;
    }
  }

  lemma {:induction false} VariantsKeepMeaning(sem: Semantics, value: Json, doc: Json)
    requires value.Arr? && forall i | 0 <= i < |value.items| :: Safe(sem, value.items[i])
    ensures Canonical(value).Arr? && Verdicts(sem, Canonical(value), doc) == Verdicts(sem, value, doc)
    decreases value, 0
  {
    hide Safe, Canonical, Accepts;
    CanonicalArray(value);
    forall i | 0 <= i < |value.items|
      ensures Accepts(sem, Canonical(value).items[i], doc) <==> Accepts(sem, value.items[i], doc)
    {
      CanonicalKeepsMeaning(sem, value.items[i], doc);
    }
  }

  lemma {:induction false} PrefixKeepsMeaning(sem: Semantics, value: Json, doc: Json)
    requires value.Arr? && forall i | 0 <= i < |value.items| :: Safe(sem, value.items[i])
    ensures Canonical(value).Arr? && |Canonical(value).items| == |value.items|
    ensures doc.Arr? ==> forall i | 0 <= i < |value.items| && i < |doc.items| ::
      Accepts(sem, Canonical(value).items[i], doc.items[i]) <==> Accepts(sem, value.items[i], doc.items[i])
    decreases value, 0
  {
    hide Safe, Canonical, Accepts;
    CanonicalArray(value);
    if doc.Arr? {
      forall i | 0 <= i < |value.items| && i < |doc.items|
        ensures Accepts(sem, Canonical(value).items[i], doc.items[i]) <==> Accepts(sem, value.items[i], doc.items[i])
      {
        CanonicalKeepsMeaning(sem, value.items[i], doc.items[i]);
      }
    }
  }

  lemma {:induction false} PropertiesKeepMeaning(sem: Semantics, value: Json, doc: Json)
    requires value.Obj? && forall p | p in value.fields :: Safe(sem, value.fields[p])
    ensures Canonical(value).Obj? && Canonical(value).fields.Keys == value.fields.Keys
    ensures doc.Obj? ==> forall q, p | q in value.fields && p in doc.fields ::
      Accepts(sem, Canonical(value).fields[q], doc.fields[p]) <==> Accepts(sem, value.fields[q], doc.fields[p])
    decreases value, 0
  {
    hide Safe, Canonical, Accepts;
    CanonicalProperties(sem, value);
    if doc.Obj? {
      forall q, p | q in value.fields && p in doc.fields
        ensures Accepts(sem, Canonical(value).fields[q], doc.fields[p]) <==>
          Accepts(sem, value.fields[q], doc.fields[p])
      {
        CanonicalKeepsMeaning(sem, value.fields[q], doc.fields[p]);
      }
    }
  }

  lemma {:induction false} MembersKeepMeaning(sem: Semantics, value: Json, doc: Json)
    requires Safe(sem, value)
    ensures doc.Obj? ==> forall p | p in doc.fields ::
      Accepts(sem, Canonical(value), doc.fields[p]) <==> Accepts(sem, value, doc.fields[p])
    ensures doc.Arr? ==> forall i | 0 <= i < |doc.items| ::
      Accepts(sem, Canonical(value), doc.items[i]) <==> Accepts(sem, value, doc.items[i])
    decreases value, 1, 1
  {
    hide Safe, Canonical, Accepts;
    match doc
    case Obj(fields) =>
      forall p | p in fields ensures Accepts(sem, Canonical(value), fields[p]) <==> Accepts(sem, value, fields[p]) {
        CanonicalKeepsMeaning(sem, value, fields[p]);
      }
    case Arr(items) =>
      forall i | 0 <= i < |items| ensures Accepts(sem, Canonical(value), items[i]) <==> Accepts(sem, value, items[i]) {
        CanonicalKeepsMeaning(sem, value, items[i]);
      }
    case _ =>
  }

  /** A safe schema and its canonical spelling accept the same documents. */
  lemma {:induction false} CanonicalKeepsMeaning(sem: Semantics, schema: Json, doc: Json)
    requires Safe(sem, schema)
    ensures Accepts(sem, Canonical(schema), doc) <==> Accepts(sem, schema, doc)
    decreases schema, 1, 0
  {
    if schema.Obj? {
      FieldsKeepMeaning(sem, schema, doc);
      var fields := CanonicalFields(schema);
      if Folds(fields) { FoldKeepsMeaning(sem, fields, doc); }
      SortTypeMeans(sem, MergeNullableOneOf(fields), doc);
    }
  }

  lemma SafeKey(sem: Semantics, schema: Json, key: string)
    requires schema.Obj? && Safe(sem, schema) && key in schema.fields
    ensures SafeField(sem, key, schema.fields[key])
    ensures key in CanonicalFields(schema) && CanonicalFields(schema)[key] == CanonicalField(key, schema.fields[key])
  {
    hide SafeField, CanonicalField, FoldIsSafe, Folds;
  }

  lemma {:induction false} FieldsKeepMeaning(sem: Semantics, schema: Json, doc: Json)
    requires schema.Obj? && Safe(sem, schema)
    ensures Accepts(sem, Obj(CanonicalFields(schema)), doc) <==> Accepts(sem, schema, doc)
    decreases schema, 0
  {
    var node, fields := schema.fields, CanonicalFields(schema);
    assert fields.Keys == node.Keys;
    BesideIsKept(sem, schema);
    UnlistedIsKept(sem, schema);
    hide Safe, SafeField, AcceptsField, BesideOf, UnlistedOf, AcceptsOther, CanonicalFields, CanonicalField;
    forall key | key in node
      ensures AcceptsField(sem, key, fields[key], BesideOf(fields), doc)
         <==> AcceptsField(sem, key, node[key], BesideOf(node), doc)
    {
      SafeKey(sem, schema, key);
      FieldKeepsMeaning(sem, key, node[key], BesideOf(node), doc);
    }
  }

  /** Safe schemas with one canonical spelling accept the same documents. */
  lemma EqualSpellingsAcceptTheSame(sem: Semantics, a: Json, b: Json, doc: Json)
    requires Safe(sem, a) && Safe(sem, b) && Canonical(a) == Canonical(b)
    ensures Accepts(sem, a, doc) <==> Accepts(sem, b, doc)
  {
    hide Safe, Accepts, Canonical;
    CanonicalKeepsMeaning(sem, a, doc);
    CanonicalKeepsMeaning(sem, b, doc);
  }

  /** For schemas that look safe, one canonical spelling means the same documents, told from the text alone. */
  lemma TextSpellingsAcceptTheSame(sem: Semantics, specific: set<string>, a: Json, b: Json, doc: Json)
    requires SparesNull(sem, specific) && TextSafe(specific, a) && TextSafe(specific, b)
    requires Canonical(a) == Canonical(b)
    ensures Accepts(sem, a, doc) <==> Accepts(sem, b, doc)
  {
    hide Safe, TextSafe, SparesNull, Accepts, Canonical;
    TextSafeIsSafe(sem, specific, a);
    TextSafeIsSafe(sem, specific, b);
    EqualSpellingsAcceptTheSame(sem, a, b, doc);
  }

  // ---------------------------------------------------------------------
  // Spellings that are noise, and folds that are not
  // ---------------------------------------------------------------------

  /** The order of `required` does not show in the canonical spelling. */
  lemma RequiredOrderIsNoise(node: map<string, Json>, reordered: seq<string>)
    requires REQUIRED in node && node[REQUIRED].Arr? && AllStrings(node[REQUIRED].items)
    requires multiset(Texts(node[REQUIRED].items)) == multiset(reordered)
    ensures Canonical(Obj(node[REQUIRED := Arr(Strings(reordered))])) == Canonical(Obj(node))
  {
    var other := node[REQUIRED := Arr(Strings(reordered))];
    SortUnique(Texts(node[REQUIRED].items), reordered);
    assert Texts(Strings(reordered)) == reordered;
    assert CanonicalFields(Obj(other)) == CanonicalFields(Obj(node)) by {
      forall key | key in node
        ensures CanonicalFields(Obj(other))[key] == CanonicalFields(Obj(node))[key]
      {
      }
    }
  }

  /** A branch that stays a branch: it folds nothing itself and is not the null schema. */
  predicate IsBranch(branch: map<string, Json>) {
    TYPE in branch && branch[TYPE].Str? && !Folds(CanonicalFields(Obj(branch))) &&
    CanonicalFields(Obj(branch)) != NULL_SCHEMA.fields
  }

  lemma BranchFields(branch: map<string, Json>)
    requires IsBranch(branch)
    ensures Canonical(Obj(branch)) == Obj(CanonicalFields(Obj(branch)))
    ensures TYPE in CanonicalFields(Obj(branch)) && CanonicalFields(Obj(branch))[TYPE] == branch[TYPE]
  {
    KeysDiffer();
    assert CanonicalFields(Obj(branch))[TYPE] == CanonicalField(TYPE, branch[TYPE]);
  }

  lemma NullSchemaIsCanonical()
    ensures Canonical(NULL_SCHEMA) == NULL_SCHEMA
  {
    KeysDiffer();
    assert CanonicalFields(NULL_SCHEMA) == NULL_SCHEMA.fields;
  }

  /** A hand-written `oneOf` of the branch and null, in either order. */
  function Nested(siblings: map<string, Json>, branch: map<string, Json>, nullFirst: bool): map<string, Json> {
    siblings[ONE_OF := Arr(if nullFirst then [NULL_SCHEMA, Obj(branch)] else [Obj(branch), NULL_SCHEMA])]
  }

  /** The derived spelling: the branch in place, with a list of two types. */
  function Flat(siblings: map<string, Json>, branch: map<string, Json>): map<string, Json>
    requires TYPE in branch
  {
    siblings + branch[TYPE := Arr([branch[TYPE], Str(NULL_TYPE)])]
  }

  lemma NestedFields(siblings: map<string, Json>, branch: map<string, Json>, nullFirst: bool)
    requires IsBranch(branch)
    ensures var fields := CanonicalFields(Obj(Nested(siblings, branch, nullFirst)));
      Folds(fields) && Branch(fields) == CanonicalFields(Obj(branch)) &&
      fields - {ONE_OF} == CanonicalFields(Obj(siblings)) - {ONE_OF}
  {
    hide IsBranch;
    var nested := Nested(siblings, branch, nullFirst);
    var fields := CanonicalFields(Obj(nested));
    BranchFields(branch);
    NullSchemaIsCanonical();
    KeysDiffer();
    CanonicalArray(nested[ONE_OF]);
    assert fields[ONE_OF] == CanonicalField(ONE_OF, nested[ONE_OF]) == Canonical(nested[ONE_OF]);
    BranchIsNotNull(branch);
    var inner := CanonicalFields(Obj(branch));
    assert fields[ONE_OF].items == if nullFirst then [NULL_SCHEMA, Obj(inner)] else [Obj(inner), NULL_SCHEMA];
    assert Other(fields[ONE_OF].items) == Obj(inner);
    assert fields - {ONE_OF} == CanonicalFields(Obj(siblings)) - {ONE_OF};
  }

  lemma BranchIsNotNull(branch: map<string, Json>)
    requires IsBranch(branch)
    ensures CanonicalFields(Obj(branch)) != NULL_SCHEMA.fields && TYPE in branch && branch[TYPE].Str?
  {
  }

  lemma FlatFields(siblings: map<string, Json>, branch: map<string, Json>)
    requires IsBranch(branch) && ONE_OF !in siblings
    ensures var fields := CanonicalFields(Obj(Flat(siblings, branch)));
      !Folds(fields) &&
      fields ==
        CanonicalFields(Obj(siblings)) + CanonicalFields(Obj(branch))[TYPE := Arr([branch[TYPE], Str(NULL_TYPE)])]
  {
    var flat := Flat(siblings, branch);
    var fields := CanonicalFields(Obj(flat));
    KeysDiffer();
    TypeIsKept(flat[TYPE]);
    assert fields[TYPE] == CanonicalField(TYPE, flat[TYPE]) == flat[TYPE];
    assert forall key | key in branch && key != TYPE :: fields[key] == CanonicalField(key, branch[key]);
  }

  /** Both spellings of a nullable schema have one canonical form. */
  lemma NullableSpellingsAgree(siblings: map<string, Json>, branch: map<string, Json>, nullFirst: bool)
    requires IsBranch(branch) && ONE_OF !in siblings
    ensures Canonical(Obj(Nested(siblings, branch, nullFirst))) == Canonical(Obj(Flat(siblings, branch)))
  {
    hide IsBranch, Folds, CanonicalFields, Flat, Nested;
    var own, inner := CanonicalFields(Obj(siblings)), CanonicalFields(Obj(branch));
    NestedFields(siblings, branch, nullFirst);
    FlatFields(siblings, branch);
    BranchFields(branch);
    BranchIsNotNull(branch);
    NullableTypeInOrder(inner);
    OwnFields(siblings);
    assert own - {ONE_OF} == own;
    var names := [branch[TYPE], Str(NULL_TYPE)];
    assert NullableType(inner) == Arr(Sorted(names));
    assert SortType(own + inner[TYPE := Arr(names)]) == own + inner[TYPE := Arr(Sorted(names))];
    assert SortType(own + inner[TYPE := NullableType(inner)]) == own + inner[TYPE := NullableType(inner)];
  }

  lemma OwnFields(siblings: map<string, Json>)
    ensures CanonicalFields(Obj(siblings)).Keys == siblings.Keys
  {
  }

  /** A node with a type beside a `oneOf` of a typed branch and null. */
  function Typed(beside: string, inside: string): map<string, Json> {
    map[TYPE := Str(beside), ONE_OF := Arr([Obj(map[TYPE := Str(inside)]), NULL_SCHEMA])]
  }

  lemma TypedFolds(beside: string, inside: string)
    requires inside != NULL_TYPE
    ensures var node := Typed(beside, inside);
      Folds(node) && Branch(node) == map[TYPE := Str(inside)] && TYPE in Siblings(node) &&
      MergeNullableOneOf(node) == map[TYPE := NullableType(map[TYPE := Str(inside)])]
  {
    hide NullableType;
    KeysDiffer();
    var branch := map[TYPE := Str(inside)];
    assert Obj(branch).fields[TYPE] != NULL_SCHEMA.fields[TYPE];
    assert Branch(Typed(beside, inside)) == branch;
  }

  lemma TypeAloneMeans(sem: Semantics, node: map<string, Json>, doc: Json)
    requires node.Keys == {TYPE}
    ensures Accepts(sem, Obj(node), doc) <==> AcceptsType(node[TYPE], doc)
  {
    hide KindOf, AcceptsType;
    assert UnlistedOf(node) == map[];
    TypeField(sem, node, doc);
  }

  /** A sibling type is overwritten: the node accepts nothing, its canonical form accepts null. */
  lemma SiblingTypeIsOverwritten(sem: Semantics)
    ensures var node := Typed("string", "integer");
      Folds(node) && !Apart(node) && !FoldIsSafe(sem, node) &&
      Accepts(sem, Obj(MergeNullableOneOf(node)), Null) && !Accepts(sem, Obj(node), Null)
  {
    hide KindOf, Decoupled, BesideOf, NullableType, KeptAccept, Rest, AcceptsOther, Sorted;
    assert |"integer"| == 7 && |"string"| == 6 && |NULL_TYPE| == 4;
    var node, branch := Typed("string", "integer"), map[TYPE := Str("integer")];
    TypedFolds("string", "integer");
    assert TYPE in Siblings(node) && TYPE in Branch(node);
    TypeField(sem, node, Null);
    NullableMeans(branch, Null);
    TypeAloneMeans(sem, MergeNullableOneOf(node), Null);
    if FoldIsSafe(sem, node) { FoldKeepsMeaning(sem, node, Null); }
  }

  /** An `enum` without null rejects null once it is folded. */
  lemma EnumRejectsNull(sem: Semantics, branch: map<string, Json>, value: string)
    requires branch == map[TYPE := Str("string"), "enum" := Arr([Str(value)])]
    ensures var node := map[ONE_OF := Arr([Obj(branch), NULL_SCHEMA])];
      Folds(node) && PlainSiblings(node) && !FoldIsSafe(sem, node)
  {
    var node := map[ONE_OF := Arr([Obj(branch), NULL_SCHEMA])];
    assert |"enum"| == 4 && "enum"[0] == 'e' && TYPE[0] == 't' && |"string"| == 6 && |NULL_TYPE| == 4;
    assert "enum" in branch && "enum" !in NULL_SCHEMA.fields;
    assert Obj(branch) != NULL_SCHEMA;
    assert Branch(node) == branch;
    assert KindOf("enum") == Enum;
    assert !AcceptsField(sem, "enum", branch["enum"], BesideOf(branch), Null);
    PlainFoldExact(sem, node);
  }
}

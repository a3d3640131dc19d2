/** The filter tables of the front end (panoptic_front/src/data/models.ts): which operators a property type
    offers, which operators take an input value, the default value of each property type, and the empty filter
    group and tab state a new tab starts from. The string values of both enums are modelled with their parsers. */
module Filters {
  import opened Results
  import opened Seqs

  // ---------------------------------------------------------------- property types

  /** `PropertyType`, plus the case of a type string the enum does not list. */
  datatype PropertyType =
    | String | Number | Tag | MultiTags | ImageLink | Url | Date | Path | Color | Checkbox | AverageHash | Sha1
    | Unrecognised

  /** The enum's string value of each listed type. */
  function TypeName(t: PropertyType): (s: string)
    requires !t.Unrecognised?
  {
    match t
    case String => "string"
    case Number => "number"
    case Tag => "tag"
    case MultiTags => "multi_tags"
    case ImageLink => "image_link"
    case Url => "url"
    case Date => "date"
    case Path => "path"
    case Color => "color"
    case Checkbox => "checkbox"
    case AverageHash => "average hash"
    case Sha1 => "sha1"
  }

  /** The type a string value denotes; any other string falls to the `default` branches. */
  function ParseType(s: string): (t: PropertyType)
    ensures !t.Unrecognised? ==> TypeName(t) == s
  {
    if s == "string" then String
    else if s == "number" then Number
    else if s == "tag" then Tag
    else if s == "multi_tags" then MultiTags
    else if s == "image_link" then ImageLink
    else if s == "url" then Url
    else if s == "date" then Date
    else if s == "path" then Path
    else if s == "color" then Color
    else if s == "checkbox" then Checkbox
    else if s == "average hash" then AverageHash
    else if s == "sha1" then Sha1
    else Unrecognised
  }

  /** Every listed type is recognised from its own string value. */
  lemma {:induction false} ParseTypeName(t: PropertyType)
    requires !t.Unrecognised?
    ensures ParseType(TypeName(t)) == t
  {
  }

  // ---------------------------------------------------------------- filter operators

  datatype FilterOperator =
    | Equal | EqualNot | Like | Lower | Leq | Greater | Geq | IsTrue | IsFalse | Contains | StartsWith
    | ContainsAny | ContainsAll | ContainsNot | And | Or | IsSet | NotSet

  /** The enum's string value of each operator. */
  function OperatorName(op: FilterOperator): string
  {
    match op
    case Equal => "equal"
    case EqualNot => "not equal"
    case Like => "like"
    case Lower => "lower"
    case Leq => "lower or equal"
    case Greater => "greater"
    case Geq => "greater or equal"
    case IsTrue => "is true"
    case IsFalse => "is false"
    case Contains => "contains"
    case StartsWith => "starts with"
    case ContainsAny => "contains any"
    case ContainsAll => "contains all"
    case ContainsNot => "does not contain"
    case And => "and"
    case Or => "or"
    case IsSet => "is set"
    case NotSet => "is not set"
  }

  /** The operator a string value denotes, if any. */
  function ParseOperator(s: string): (r: Option<FilterOperator>)
    ensures r.Some? ==> OperatorName(r.value) == s
  {
    if s == "equal" then Some(Equal)
    else if s == "not equal" then Some(EqualNot)
    else if s == "like" then Some(Like)
    else if s == "lower" then Some(Lower)
    else if s == "lower or equal" then Some(Leq)
    else if s == "greater" then Some(Greater)
    else if s == "greater or equal" then Some(Geq)
    else if s == "is true" then Some(IsTrue)
    else if s == "is false" then Some(IsFalse)
    else if s == "contains" then Some(Contains)
    else if s == "starts with" then Some(StartsWith)
    else if s == "contains any" then Some(ContainsAny)
    else if s == "contains all" then Some(ContainsAll)
    else if s == "does not contain" then Some(ContainsNot)
    else if s == "and" then Some(And)
    else if s == "or" then Some(Or)
    else if s == "is set" then Some(IsSet)
    else if s == "is not set" then Some(NotSet)
    else None
  }

  /** Operator names are distinct, so parsing an operator's name gives the operator back and no operator's
      name is rejected. */
  lemma {:induction false} ParseOperatorName(op: FilterOperator)
    ensures ParseOperator(OperatorName(op)) == Some(op)
  {
    match op
    case Equal =>
    case EqualNot =>
    case Like =>
    case Lower =>
    case Leq =>
    case Greater =>
    case Geq =>
    case IsTrue =>
    case IsFalse =>
    case Contains =>
    case StartsWith =>
    case ContainsAny =>
    case ContainsAll =>
    case ContainsNot =>
    case And =>
    case Or =>
    case IsSet =>
    case NotSet =>
  }

  // ---------------------------------------------------------------- availableOperators

  /** `availableOperators(propertyType)`, in the order the menu lists them. */
  function AvailableOperators(t: PropertyType): (ops: seq<FilterOperator>)
    ensures NoDuplicates(ops)
    ensures And !in ops && Or !in ops && Contains !in ops
  {
    match t
    case Checkbox => [IsTrue, IsFalse]
    case Color => [IsSet, NotSet, Equal, EqualNot]
    case Date => [IsSet, NotSet, Equal, EqualNot, Leq, Lower, Greater, Geq]
    case ImageLink => [IsSet, NotSet, Equal, EqualNot]
    case MultiTags => [IsSet, NotSet, ContainsAll, ContainsAny, ContainsNot]
    case Number => [IsSet, NotSet, Equal, EqualNot, Leq, Lower, Greater, Geq]
    case Path => [IsSet, NotSet, Equal, EqualNot, StartsWith, Like]
    case String => [IsSet, NotSet, Equal, EqualNot, StartsWith, Like]
    case Tag => [IsSet, NotSet, ContainsAny, ContainsNot]
    case Url => [IsSet, NotSet, Equal, EqualNot, Like, StartsWith]
    case AverageHash => [Equal, EqualNot]
    case Sha1 => [Equal, EqualNot]
    case Unrecognised => []
  }

  /** The types whose values can be absent: every listed type but the checkbox and the two hash columns. */
  predicate Settable(t: PropertyType)
  {
    !t.Unrecognised? && !t.Checkbox? && !t.AverageHash? && !t.Sha1?
  }

  /** The presence tests are offered exactly for the settable types, and an unrecognised type offers nothing. */
  lemma {:induction false} PresenceTests(t: PropertyType)
    ensures IsSet in AvailableOperators(t) <==> Settable(t)
    ensures NotSet in AvailableOperators(t) <==> Settable(t)
  {
  }

  /** The truth tests are offered exactly for the checkbox. */
  lemma {:induction false} TruthTests(t: PropertyType)
    ensures IsTrue in AvailableOperators(t) <==> t.Checkbox?
    ensures IsFalse in AvailableOperators(t) <==> t.Checkbox?
  {
  }

  /** The menus without presence tests, listed in full. */
  lemma {:induction false} FixedMenus(t: PropertyType)
    ensures |AvailableOperators(t)| == 0 <==> t.Unrecognised?
    ensures t.Checkbox? ==> AvailableOperators(t) == [IsTrue, IsFalse]
    ensures t.AverageHash? || t.Sha1? ==> AvailableOperators(t) == [Equal, EqualNot]
  {
  }

  // ---------------------------------------------------------------- operatorHasInput

  /** `operatorHasInput(operator)`: whether the filter needs a value typed in. */
  function OperatorHasInput(op: FilterOperator): (r: bool)
    ensures r <==> !(op in {IsSet, NotSet, IsTrue, IsFalse, And, Or})
  {
    match op
    case Contains => true
    case ContainsAll => true
    case ContainsAny => true
    case ContainsNot => true
    case Equal => true
    case EqualNot => true
    case Geq => true
    case Greater => true
    case Leq => true
    case Lower => true
    case Like => true
    case StartsWith => true
    case _ => false
  }

  /** On a type's menu, an operator asks for a value unless it is a presence or truth test. */
  lemma {:induction false} MenuInputs(t: PropertyType, op: FilterOperator)
    requires op in AvailableOperators(t)
    ensures OperatorHasInput(op) <==> !(op in {IsSet, NotSet, IsTrue, IsFalse})
  {
  }

  // ---------------------------------------------------------------- propertyDefault

  /** A JSON value as the front end holds it. */
  datatype Json = JBool(b: bool) | JString(s: string) | JNumber(n: int) | JList(items: seq<Json>)

  /** `propertyDefault(type)`. */
  function PropertyDefault(t: PropertyType): (v: Json)
    ensures v.JBool? <==> t.Checkbox?
    ensures v.JNumber? <==> t.Number?
    ensures v.JList? <==> t.MultiTags? || t.Tag?
    ensures v.JBool? ==> !v.b
    ensures v.JNumber? ==> v.n == 0
    ensures v.JList? ==> v.items == []
  {
    match t
    case Checkbox => JBool(false)
    case Color => JString("#aaaaaa")
    case Date => JString("")
    case Number => JNumber(0)
    case MultiTags => JList([])
    case Tag => JList([])
    case _ => JString("")
  }

  /** The default fits the type's menu: the checkbox starts false, the tag types start empty and offer the
      list tests, the ordered types start from a value the comparisons accept, and every other type is text. */
  lemma {:induction false} DefaultFitsOperators(t: PropertyType)
    ensures PropertyDefault(t).JBool? <==> IsTrue in AvailableOperators(t)
    ensures PropertyDefault(t).JList? <==> ContainsNot in AvailableOperators(t)
    ensures PropertyDefault(t).JNumber? ==> Lower in AvailableOperators(t)
    ensures t.Number? ==> PropertyDefault(t) == JNumber(0)
    ensures t.Date? ==> PropertyDefault(t) == JString("") && Lower in AvailableOperators(t)
    ensures t.Color? ==> PropertyDefault(t) == JString("#aaaaaa")
    ensures PropertyDefault(t).JString? && !t.Color? ==> PropertyDefault(t) == JString("")
  {
  }

  // ---------------------------------------------------------------- buildFilterGroup and buildTabState

  /** A filter on one property. */
  datatype Filter = Filter(propertyId: int, operator: FilterOperator, value: Json)

  /** A filter group: filters and nested groups joined by one operator. */
  datatype FilterGroup = FilterGroup(filters: seq<FilterItem>, groupOperator: FilterOperator, depth: int, isGroup: bool)

  datatype FilterItem = Single(filter: Filter) | Nested(group: FilterGroup)

  /** What the `FilterGroup` interface demands: `isGroup` true and a group operator of `and` or `or`, all the
      way down. */
  predicate WellFormedGroup(g: FilterGroup)
  {
    && g.isGroup
    && (g.groupOperator == And || g.groupOperator == Or)
    && forall i :: 0 <= i < |g.filters| ==> g.filters[i].Nested? ==> WellFormedGroup(g.filters[i].group)
  }

  /** `buildFilterGroup()`: the empty top-level group. */
  function BuildFilterGroup(): (g: FilterGroup)
    ensures WellFormedGroup(g)
    ensures g.groupOperator == And && g.isGroup
    ensures |g.filters| == 0 && g.depth == 0
  {
    FilterGroup([], And, 0, true)
  }

  /** A sort key of a tab. */
  datatype Sort = Sort(propertyId: int, ascending: bool)

  /** `TabState`. */
  datatype TabState = TabState(name: string, display: string, filter: FilterGroup, groups: seq<int>,
                               sortList: seq<Sort>, imageSize: int, visibleProperties: map<int, bool>,
                               visibleFolders: map<int, bool>, selectedFolders: map<int, bool>)

  /** `buildTabState()`: a tab named 'Tab' in grid display, with the empty filter group and nothing grouped,
      sorted, shown or selected. */
  function BuildTabState(): (s: TabState)
    ensures s.filter == BuildFilterGroup() && WellFormedGroup(s.filter)
    ensures s.name == "Tab" && s.display == "grid" && s.imageSize == 100
    ensures s.groups == [] && s.sortList == []
    ensures s.visibleProperties == map[] && s.visibleFolders == map[] && s.selectedFolders == map[]
  {
    TabState("Tab", "grid", BuildFilterGroup(), [], [], 100, map[], map[], map[])
  }

  /** Adding a filter to a well-formed group keeps it well-formed, so the tab's filter stays valid as the user
      edits it. */
  lemma {:induction false} AddFilterKeepsGroupWellFormed(g: FilterGroup, f: Filter)
    requires WellFormedGroup(g)
    ensures WellFormedGroup(g.(filters := g.filters + [Single(f)]))
  {
    var h := g.(filters := g.filters + [Single(f)]);
    assert forall i :: 0 <= i < |g.filters| ==> h.filters[i] == g.filters[i];
  }
}

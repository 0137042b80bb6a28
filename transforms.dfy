/** The transform layer: how a field value is prepared for saving and how a
    stored value is rendered for display, per field kind. */
module Transforms {
  import opened Values

  /** The transform a field's `type` selects. */
  datatype Kind = String | Relation | MassAssociation

  /** A field's `getRelationLink` when the model's Historizable behaviour has one. */
  type RelationLink = (string, Value) -> Value

  /** One entry of a model's field policy (`getFields()`), keyed by field name. */
  datatype FieldConfig = FieldConfig(
    name: string,
    searchable: bool,
    obfuscated: bool,
    kind: Kind,
    displayParser: Option<(string, Value) -> Value>)

  // ---------------------------------------------------------------------------
  // PHP trim

  /** The characters PHP's `trim` removes by default. */
  predicate IsTrimChar(c: char)
  {
    c == ' ' || c == '\t' || c == '\n' || c == '\r' || c == '\0' || c == '\U{0B}'
  }

  function TrimLeft(s: string): (r: string)
    ensures |r| <= |s| && r == s[|s| - |r|..]
    ensures forall k | 0 <= k < |s| - |r| :: IsTrimChar(s[k])
    ensures r != [] ==> !IsTrimChar(r[0])
    decreases |s|
  {
    if s != [] && IsTrimChar(s[0]) then TrimLeft(s[1..]) else s
  }

  function TrimRight(s: string): (r: string)
    ensures |r| <= |s| && r == s[..|r|]
    ensures forall k | |r| <= k < |s| :: IsTrimChar(s[k])
    ensures r != [] ==> !IsTrimChar(r[|r| - 1])
    decreases |s|
  {
    if s != [] && IsTrimChar(s[|s| - 1]) then TrimRight(s[..|s| - 1]) else s
  }

  /** PHP's `trim($s)`: the result neither starts nor ends with a trim character. */
  function Trim(s: string): (r: string)
    ensures r == [] || (!IsTrimChar(r[0]) && !IsTrimChar(r[|r| - 1]))
  {
    TrimRight(TrimLeft(s))
  }

  /** `trim` keeps one contiguous slice and drops only trim characters around it. */
  lemma TrimSlice(s: string) returns (a: nat, b: nat)
    ensures a <= b <= |s| && Trim(s) == s[a..b]
    ensures forall k | 0 <= k < a :: IsTrimChar(s[k])
    ensures forall k | b <= k < |s| :: IsTrimChar(s[k])
  {
    var left := TrimLeft(s);
    var r := TrimRight(left);
    a := |s| - |left|;
    b := a + |r|;
    assert r == left[..|r|];
    assert left == s[a..];
    forall k | b <= k < |s|
      ensures IsTrimChar(s[k])
    {
      assert s[k] == left[k - a];
    }
  }

  /** Input that already has no trim character at either end is returned unchanged. */
  lemma TrimClean(s: string)
    requires s == [] || (!IsTrimChar(s[0]) && !IsTrimChar(s[|s| - 1]))
    ensures Trim(s) == s
  {
  }

  lemma TrimIdempotent(s: string)
    ensures Trim(Trim(s)) == Trim(s)
  {
    TrimClean(Trim(s));
  }

  // ---------------------------------------------------------------------------
  // PHP implode(', ', ...)

  const ListSeparator := ", "

  function Join(xs: seq<string>): string
    decreases |xs|
  {
    if xs == [] then ""
    else if |xs| == 1 then xs[0]
    else xs[0] + ListSeparator + Join(xs[1..])
  }

  /** PHP's `explode(',', $s)`. */
  function Explode(s: string): (r: seq<string>)
    ensures |r| >= 1
    decreases |s|
  {
    if s == [] then [""]
    else
      var rest := Explode(s[1..]);
      if s[0] == ',' then [""] + rest else [[s[0]] + rest[0]] + rest[1..]
  }

  function DropFirst(ps: seq<string>): seq<string>
    decreases |ps|
  {
    if ps == [] then [] else [if ps[0] == [] then [] else ps[0][1..]] + DropFirst(ps[1..])
  }

  /** Reads a joined list back: split at each comma and drop the blank after it. */
  function Unjoin(s: string): seq<string>
  {
    var parts := Explode(s);
    [parts[0]] + DropFirst(parts[1..])
  }

  predicate NoComma(x: string)
  {
    forall k | 0 <= k < |x| :: x[k] != ','
  }

  lemma {:induction false} ExplodeNoComma(a: string)
    requires NoComma(a)
    ensures Explode(a) == [a]
    decreases |a|
  {
    if a != [] {
      ExplodeNoComma(a[1..]);
      assert [a[0]] + a[1..] == a;
    }
  }

  lemma {:induction false} ExplodeHead(a: string, b: string)
    requires NoComma(a)
    ensures Explode(a + [','] + b) == [a] + Explode(b)
    decreases |a|
  {
    var s := a + [','] + b;
    if a == [] {
      assert s[1..] == b;
    } else {
      assert s[1..] == a[1..] + [','] + b;
      ExplodeHead(a[1..], b);
      assert [a[0]] + a[1..] == a;
    }
  }

  /** Each text with a blank in front: what follows each comma in a joined list. */
  function Spaced(ys: seq<string>): (r: seq<string>)
    ensures |r| == |ys|
    decreases |ys|
  {
    if ys == [] then [] else [" " + ys[0]] + Spaced(ys[1..])
  }

  /** A joined list, split at commas, is its first element followed by the
      others each after its blank. */
  lemma {:induction false} ExplodeTail(xs: seq<string>)
    requires |xs| >= 1
    requires forall i | 0 <= i < |xs| :: NoComma(xs[i])
    ensures Explode(Join(xs)) == [xs[0]] + Spaced(xs[1..])
    decreases |xs|
  {
    if |xs| == 1 {
      ExplodeNoComma(xs[0]);
    } else {
      var rest := Join(xs[1..]);
      assert Join(xs) == xs[0] + [','] + (" " + rest);
      ExplodeHead(xs[0], " " + rest);
      ExplodeTail(xs[1..]);
      var tail := Explode(rest);
      assert Explode(" " + rest) == [" " + tail[0]] + tail[1..];
      assert xs[1..][1..] == xs[2..];
    }
  }

  lemma {:induction false} DropFirstBlanks(ys: seq<string>)
    ensures DropFirst(Spaced(ys)) == ys
    decreases |ys|
  {
    if ys != [] {
      DropFirstBlanks(ys[1..]);
      assert (" " + ys[0])[1..] == ys[0];
    }
  }

  /** Joining with ", " loses nothing for a non-empty list of comma-free texts. */
  lemma UnjoinJoin(xs: seq<string>)
    requires |xs| >= 1
    requires forall i | 0 <= i < |xs| :: NoComma(xs[i])
    ensures Unjoin(Join(xs)) == xs
  {
    var s := Join(xs);
    ExplodeTail(xs);
    UnjoinParts(s, xs[0], xs[1..]);
    assert [xs[0]] + xs[1..] == xs;
  }

  lemma UnjoinParts(s: string, head: string, tail: seq<string>)
    requires Explode(s) == [head] + Spaced(tail)
    ensures Unjoin(s) == [head] + tail
  {
    var parts := Explode(s);
    assert parts[1..] == Spaced(tail);
    DropFirstBlanks(tail);
  }

  // ---------------------------------------------------------------------------
  // StringTransform

  /** `StringTransform::save`: the entity's property named `fieldname`; the
      field configuration plays no part. */
  function StringSave(fieldname: string, config: FieldConfig, props: Dict<Value>): (r: Value)
    ensures fieldname in props.m ==> r == props.m[fieldname]
    ensures fieldname !in props.m ==> r == Null
  {
    Lookup(props, fieldname)
  }

  /** `StringTransform::display`: `trim` of the value's string form; PHP's
      `trim` gives null for an array. */
  function StringDisplay(v: Value): (r: Value)
    ensures v.Arr? <==> r == Null
    ensures r.Str? ==> r.s == [] || (!IsTrimChar(r.s[0]) && !IsTrimChar(r.s[|r.s| - 1]))
  {
    if v.Arr? then Null else Str(Trim(ToText(v)))
  }

  /** Displaying a displayed non-array value changes nothing more. */
  lemma StringDisplayIdempotent(v: Value)
    requires !v.Arr?
    ensures StringDisplay(StringDisplay(v)) == StringDisplay(v)
  {
    TrimIdempotent(ToText(v));
  }

  /** A string without surrounding trim characters is displayed as it is. */
  lemma StringDisplayClean(s: string)
    requires s == [] || (!IsTrimChar(s[0]) && !IsTrimChar(s[|s| - 1]))
    ensures StringDisplay(Str(s)) == Str(s)
  {
    TrimClean(s);
  }

  // ---------------------------------------------------------------------------
  // RelationTransform

  /** `RelationTransform::save` keeps the value for every field name and model. */
  function RelationSave(fieldname: string, value: Value, model: string): (r: Value)
    ensures r == value
  {
    value
  }

  /** `RelationTransform::display`: the relation link when the model offers
      one, otherwise the value; the table name the source derives from the
      field name is never used. */
  function RelationDisplay(fieldname: string, value: Value, link: Option<RelationLink>): (r: Value)
    ensures link.Some? ==> r == link.value(fieldname, value)
    ensures link.None? ==> r == value
  {
    match link
    case Some(getRelationLink) => getRelationLink(fieldname, value)
    case None => value
  }

  /** Without a relation link, display undoes nothing that save did. */
  lemma RelationRoundTrip(fieldname: string, value: Value, model: string)
    ensures RelationDisplay(fieldname, RelationSave(fieldname, value, model), None) == value
  {
  }

  // ---------------------------------------------------------------------------
  // MassAssociationTransform

  /** What the source can read a display field from: every member of an
      associated list must be an entity. */
  predicate AssociatedEntities(x: Value)
  {
    x.Arr? ==> forall i | 0 <= i < |x.items| :: x.items[i].Ent?
  }

  /** An associated entity's value of its table's display field. */
  function DisplayFieldValue(e: Value, displayField: string -> string): Value
    requires e.Ent?
  {
    var field := displayField(e.source);
    if field in e.props then e.props[field] else Null
  }

  /** `MassAssociationTransform::save`: a non-empty list of associated
      entities becomes the list of their display-field values, in order;
      anything else is returned unchanged. The field read is the one the
      configuration names, whatever `fieldname` is. */
  method MassAssociationSave(fieldname: string, config: FieldConfig, props: Dict<Value>,
                             displayField: string -> string) returns (r: Value)
    requires AssociatedEntities(Lookup(props, config.name))
    ensures var x := Lookup(props, config.name);
            if x.Arr? && x.items != [] then
              && r.Arr? && |r.items| == |x.items|
              && forall i | 0 <= i < |x.items| :: r.items[i] == DisplayFieldValue(x.items[i], displayField)
            else r == x
  {
    var assocData := Lookup(props, config.name);
    if !IsEmpty(assocData) && assocData.Arr? {
      var data: seq<Value> := [];
      var i := 0;
      while i < |assocData.items|
        invariant 0 <= i <= |assocData.items|
        invariant |data| == i
        invariant forall j | 0 <= j < i :: data[j] == DisplayFieldValue(assocData.items[j], displayField)
      {
        data := data + [DisplayFieldValue(assocData.items[i], displayField)];
        i := i + 1;
      }
      return Arr(data);
    }
    return assocData;
  }

  function Texts(items: seq<Value>): (r: seq<string>)
    ensures |r| == |items| && forall i | 0 <= i < |items| :: r[i] == ToText(items[i])
  {
    seq(|items|, i requires 0 <= i < |items| => ToText(items[i]))
  }

  /** `MassAssociationTransform::display`: an array is joined with ", ";
      anything else goes to the relation link when the model offers one and
      is returned unchanged otherwise. */
  function MassAssociationDisplay(fieldname: string, value: Value, link: Option<RelationLink>): (r: Value)
    ensures value.Arr? ==> r == Str(Join(Texts(value.items)))
    ensures !value.Arr? ==> r == RelationDisplay(fieldname, value, link)
  {
    if value.Arr? then Str(Join(Texts(value.items)))
    else match link
      case Some(getRelationLink) => getRelationLink(fieldname, value)
      case None => value
  }

  /** An empty list displays as the empty string, a single element as its text,
      and a list of comma-free texts can be read back from its display. */
  lemma MassAssociationDisplayList(fieldname: string, items: seq<Value>, link: Option<RelationLink>)
    ensures items == [] ==> MassAssociationDisplay(fieldname, Arr(items), link) == Str("")
    ensures |items| == 1 ==> MassAssociationDisplay(fieldname, Arr(items), link) == Str(ToText(items[0]))
    ensures items != [] && (forall i | 0 <= i < |items| :: NoComma(ToText(items[i]))) ==>
              Unjoin(MassAssociationDisplay(fieldname, Arr(items), link).s) == Texts(items)
  {
    if items != [] && (forall i | 0 <= i < |items| :: NoComma(ToText(items[i]))) {
      UnjoinJoin(Texts(items));
    }
  }

  // ---------------------------------------------------------------------------
  // Dispatch on the field's kind

  /** The display transform the field's kind selects. */
  function Display(kind: Kind, fieldname: string, value: Value, link: Option<RelationLink>): (r: Value)
    ensures kind == String ==> r == StringDisplay(value)
    ensures kind == Relation ==> r == RelationDisplay(fieldname, value, link)
    ensures kind == MassAssociation ==> r == MassAssociationDisplay(fieldname, value, link)
  {
    match kind
    case String => StringDisplay(value)
    case Relation => RelationDisplay(fieldname, value, link)
    case MassAssociation => MassAssociationDisplay(fieldname, value, link)
  }
}

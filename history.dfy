/** The revision log (`ModelHistoryTable`): what `add` records, how revisions
    are numbered, how entries are listed for display and how a revision is
    diffed. The table is an in-memory sequence of entries in insertion order. */
module ModelHistory {
  import opened Values
  import opened Transforms
  import Diff

  datatype Action = Create | Update | Delete | Comment

  /** A tracked entity: the table it comes from, its properties in `toArray()`
      order, and what its optional `getHistoryContext*` methods return
      (`None` when the entity has no such method). */
  datatype Entity = Entity(
    source: string,
    props: Dict<Value>,
    context: Option<Value>,
    contextType: Option<Value>,
    contextSlug: Option<Value>)

  function Id(entity: Entity): Value
  {
    Lookup(entity.props, "id")
  }

  function OrNull(v: Option<Value>): Value
  {
    match v
    case Some(x) => x
    case None => Null
  }

  datatype Entry = Entry(
    model: string,
    foreignKey: Value,
    action: Action,
    data: Dict<Value>,
    contextType: Value,
    context: Value,
    contextSlug: Value,
    userId: Value,
    revision: int)

  /** A model's field policy, keyed by field name in configuration order. */
  type Policy = Dict<FieldConfig>

  /** What an obfuscated field is stored as: sixteen asterisks. */
  const Mask: string := "****************"

  // ---------------------------------------------------------------------------
  // Keys and revision numbers

  /** The table alias with one trailing "Table" removed. */
  function GetEntityModel(source: string): (r: string)
    ensures |source| >= 5 && source[|source| - 5..] == "Table" ==> r + "Table" == source
    ensures !(|source| >= 5 && source[|source| - 5..] == "Table") ==> r == source
  {
    if |source| >= 5 && source[|source| - 5..] == "Table" then source[..|source| - 5] else source
  }

  /** Only the one suffix goes: `GetEntityModel(m + "Table") == m` for every `m`. */
  lemma EntityModelOfTable(m: string)
    ensures GetEntityModel(m + "Table") == m
  {
    var s := m + "Table";
    assert s[|s| - 5..] == "Table";
    assert s[..|s| - 5] == m;
  }

  predicate HasKey(e: Entry, model: string, fk: Value)
  {
    e.model == model && e.foreignKey == fk
  }

  /** The largest revision stored for a key, if any. */
  function MaxRevision(log: seq<Entry>, model: string, fk: Value): (r: Option<int>)
    ensures r.None? <==> forall i | 0 <= i < |log| :: !HasKey(log[i], model, fk)
    ensures r.Some? ==> forall i | 0 <= i < |log| && HasKey(log[i], model, fk) :: log[i].revision <= r.value
    decreases |log|
  {
    if log == [] then None
    else
      var init := log[..|log| - 1];
      var e := log[|log| - 1];
      var rest := MaxRevision(init, model, fk);
      assert forall i | 0 <= i < |init| :: init[i] == log[i];
      if !HasKey(e, model, fk) then rest
      else match rest
        case None => Some(e.revision)
        case Some(m) => Some(if e.revision > m then e.revision else m)
  }

  /** The maximum is attained: some stored entry of the key carries it. */
  lemma {:induction false} MaxRevisionAttained(log: seq<Entry>, model: string, fk: Value)
    requires MaxRevision(log, model, fk).Some?
    ensures exists i | 0 <= i < |log| :: HasKey(log[i], model, fk) && log[i].revision == MaxRevision(log, model, fk).value
    decreases |log|
  {
    var init := log[..|log| - 1];
    var e := log[|log| - 1];
    var rest := MaxRevision(init, model, fk);
    if rest.Some? && (!HasKey(e, model, fk) || e.revision <= rest.value) {
      MaxRevisionAttained(init, model, fk);
      var i :| 0 <= i < |init| && HasKey(init[i], model, fk) && init[i].revision == rest.value;
      assert log[i] == init[i];
    } else {
      assert HasKey(log[|log| - 1], model, fk);
    }
  }

  /** `getNextRevisionNumberForEntity` over a log: 1 for a new key, otherwise
      one more than the largest revision stored for it. */
  function NextRevision(log: seq<Entry>, model: string, fk: Value): (r: int)
    ensures (forall i | 0 <= i < |log| :: !HasKey(log[i], model, fk)) ==> r == 1
    ensures forall i | 0 <= i < |log| && HasKey(log[i], model, fk) :: log[i].revision < r
  {
    match MaxRevision(log, model, fk)
    case None => 1
    case Some(m) => m + 1
  }

  /** Entries for other keys have no effect on a key's next revision. */
  lemma NextRevisionOtherKey(log: seq<Entry>, e: Entry, model: string, fk: Value)
    requires !HasKey(e, model, fk)
    ensures NextRevision(log + [e], model, fk) == NextRevision(log, model, fk)
  {
    assert (log + [e])[..|log|] == log;
  }

  function CountKey(log: seq<Entry>, model: string, fk: Value): (n: nat)
    ensures n <= |log|
    ensures n == 0 <==> forall i | 0 <= i < |log| :: !HasKey(log[i], model, fk)
    decreases |log|
  {
    if log == [] then 0
    else
      var init := log[..|log| - 1];
      assert forall i | 0 <= i < |init| :: init[i] == log[i];
      CountKey(init, model, fk) + if HasKey(log[|log| - 1], model, fk) then 1 else 0
  }

  /** The log a single writer builds with `add`: each entry's revision is one
      more than the number of earlier entries with its key. */
  ghost predicate Numbered(log: seq<Entry>)
    decreases |log|
  {
    log == [] ||
    var init := log[..|log| - 1];
    var e := log[|log| - 1];
    Numbered(init) && e.revision == CountKey(init, e.model, e.foreignKey) + 1
  }

  lemma {:induction false} NumberedPrefix(log: seq<Entry>, n: nat)
    requires Numbered(log) && n <= |log|
    ensures Numbered(log[..n])
    decreases |log| - n
  {
    if n < |log| {
      NumberedPrefix(log, n + 1);
      assert log[..n + 1][..n] == log[..n];
    } else {
      assert log[..n] == log;
    }
  }

  /** In a numbered log the next revision of a key is its entry count plus one:
      the n-th entry recorded for a key gets revision n. */
  lemma {:induction false} NumberedNext(log: seq<Entry>, model: string, fk: Value)
    requires Numbered(log)
    ensures MaxRevision(log, model, fk) == if CountKey(log, model, fk) == 0 then None else Some(CountKey(log, model, fk))
    ensures NextRevision(log, model, fk) == CountKey(log, model, fk) + 1
    decreases |log|
  {
    if log != [] {
      var init := log[..|log| - 1];
      var e := log[|log| - 1];
      assert Numbered(init) && e.revision == CountKey(init, e.model, e.foreignKey) + 1;
      NumberedNext(init, model, fk);
      if HasKey(e, model, fk) {
        assert CountKey(log, model, fk) == CountKey(init, model, fk) + 1;
        assert MaxRevision(log, model, fk) == Some(e.revision);
      } else {
        assert CountKey(log, model, fk) == CountKey(init, model, fk);
        assert MaxRevision(log, model, fk) == MaxRevision(init, model, fk);
      }
    }
  }

  /** Appending the entry `add` builds keeps the log numbered. */
  lemma NumberedAppend(log: seq<Entry>, e: Entry)
    requires Numbered(log)
    requires e.revision == NextRevision(log, e.model, e.foreignKey)
    ensures Numbered(log + [e])
  {
    NumberedNext(log, e.model, e.foreignKey);
    assert (log + [e])[..|log|] == log;
  }

  /** Every revision stored for a key lies between 1 and the key's entry count. */
  lemma {:induction false} NumberedBounds(log: seq<Entry>, i: nat)
    requires Numbered(log) && i < |log|
    ensures 1 <= log[i].revision <= CountKey(log, log[i].model, log[i].foreignKey)
    decreases |log|
  {
    var init := log[..|log| - 1];
    if i < |log| - 1 {
      NumberedBounds(init, i);
      assert init[i] == log[i];
    }
  }

  /** Revisions of one key strictly increase along the log, so no two entries
      share a (model, foreign key, revision). */
  lemma NumberedIncreasing(log: seq<Entry>, i: nat, j: nat)
    requires Numbered(log) && i < j < |log|
    requires HasKey(log[j], log[i].model, log[i].foreignKey)
    ensures log[i].revision < log[j].revision
  {
    NumberedPrefix(log, j + 1);
    var prefix := log[..j + 1];
    assert prefix[..j] == log[..j];
    NumberedBounds(log[..j], i);
  }

  // ---------------------------------------------------------------------------
  // Listing a key's entries newest first

  /** The entries of a key (below a revision, when one is given) from the
      newest to the oldest: the log read backwards. */
  function NewestFirst(log: seq<Entry>, model: string, fk: Value, below: Option<int>): (r: seq<Entry>)
    decreases |log|
  {
    if log == [] then []
    else
      var rest := NewestFirst(log[..|log| - 1], model, fk, below);
      var e := log[|log| - 1];
      if HasKey(e, model, fk) && (below.None? || e.revision < below.value) then [e] + rest else rest
  }

  predicate Listed(x: Entry, model: string, fk: Value, below: Option<int>)
  {
    HasKey(x, model, fk) && (below.Some? ==> x.revision < below.value)
  }

  /** The listing holds exactly the log's entries of the key below the bound. */
  lemma {:induction false} NewestFirstMembers(log: seq<Entry>, model: string, fk: Value, below: Option<int>)
    ensures forall x | x in NewestFirst(log, model, fk, below) :: x in log && Listed(x, model, fk, below)
    ensures forall i | 0 <= i < |log| && Listed(log[i], model, fk, below) :: log[i] in NewestFirst(log, model, fk, below)
    decreases |log|
  {
    if log != [] {
      var init := log[..|log| - 1];
      NewestFirstMembers(init, model, fk, below);
      assert forall i | 0 <= i < |init| :: init[i] == log[i];
      assert log == init + [log[|log| - 1]];
    }
  }

  /** Strictly descending revisions. */
  predicate Descending(r: seq<Entry>)
  {
    forall i, j | 0 <= i < j < |r| :: r[i].revision > r[j].revision
  }

  lemma DescendingCons(e: Entry, rest: seq<Entry>)
    requires Descending(rest)
    requires forall x | x in rest :: x.revision < e.revision
    ensures Descending([e] + rest)
  {
    var r := [e] + rest;
    forall i, j | 0 <= i < j < |r|
      ensures r[i].revision > r[j].revision
    {
      assert r[j] == rest[j - 1];
      if i == 0 {
        assert rest[j - 1] in rest;
      } else {
        assert r[i] == rest[i - 1];
      }
    }
  }

  /** In a numbered log that listing is ordered by revision, strictly descending. */
  lemma {:induction false} NewestFirstDescending(log: seq<Entry>, model: string, fk: Value, below: Option<int>)
    requires Numbered(log)
    ensures Descending(NewestFirst(log, model, fk, below))
    decreases |log|
  {
    if log != [] {
      var init := log[..|log| - 1];
      var e := log[|log| - 1];
      NewestFirstDescending(init, model, fk, below);
      var rest := NewestFirst(init, model, fk, below);
      if HasKey(e, model, fk) && (below.None? || e.revision < below.value) {
        NewestFirstMembers(init, model, fk, below);
        forall x | x in rest
          ensures x.revision < e.revision
        {
          var k :| 0 <= k < |init| && init[k] == x;
          NumberedBounds(init, k);
        }
        DescendingCons(e, rest);
      }
    }
  }

  // ---------------------------------------------------------------------------
  // What add records

  /** A policy field is kept when it is searchable and set in the data;
      an obfuscated one is kept as the mask. */
  function Selected(policy: Policy, data: Dict<Value>, f: string): Option<Value>
  {
    if f in policy.m && policy.m[f].searchable && IsSet(data, f) then
      Some(if policy.m[f].obfuscated then Str(Mask) else data.m[f])
    else None
  }

  function SelectPick(policy: Policy, data: Dict<Value>): string -> Option<Value>
  {
    f => Selected(policy, data, f)
  }

  /** `$saveFields`: the policy fields `add` keeps, in policy order. */
  function SaveFields(policy: Policy, data: Dict<Value>): Dict<Value>
  {
    Collect(policy.keys, SelectPick(policy, data))
  }

  /** `add` keeps exactly the searchable policy fields set in the data, in
      policy order, masking the obfuscated ones. */
  lemma SaveFieldsSpec(policy: Policy, data: Dict<Value>, f: string)
    ensures var saved := SaveFields(policy, data);
            && saved.keys == Filter(policy.keys, SelectPick(policy, data))
            && (f in saved.m <==> f in policy.m && policy.m[f].searchable && IsSet(data, f))
            && (f in saved.m && policy.m[f].obfuscated ==> saved.m[f] == Str(Mask) && |Mask| == 16)
            && (f in saved.m && !policy.m[f].obfuscated ==> saved.m[f] == data.m[f])
  {
    CollectKeys(policy.keys, SelectPick(policy, data));
  }

  function NarrowPick(saved: Dict<Value>): string -> Option<Value>
  {
    f => if IsSet(saved, f) then Some(saved.m[f]) else None
  }

  /** The UPDATE narrowing: the kept fields named in `dirtyFields`, in that order. */
  function Narrow(saved: Dict<Value>, dirty: seq<string>): Dict<Value>
  {
    Collect(dirty, NarrowPick(saved))
  }

  /** Narrowing keeps exactly the dirty names that survived the selection,
      with their kept values, in `dirtyFields` order (for distinct names). */
  lemma NarrowSpec(policy: Policy, data: Dict<Value>, dirty: seq<string>, f: string)
    ensures var n := Narrow(SaveFields(policy, data), dirty);
            && (f in n.m <==> f in dirty && f in policy.m && policy.m[f].searchable && IsSet(data, f))
            && (f in n.m ==> n.m[f] == SaveFields(policy, data).m[f])
            && (Distinct(dirty) ==> n.keys == Filter(dirty, NarrowPick(SaveFields(policy, data))))
  {
    SaveFieldsSpec(policy, data, f);
    if Distinct(dirty) {
      CollectKeys(dirty, NarrowPick(SaveFields(policy, data)));
    }
  }

  /** `$options['data']` before selection: the given data, or the entity's
      `toArray()` when none (or an empty array) is given. */
  function SourceData(entity: Entity, data: Option<Dict<Value>>): Dict<Value>
  {
    if data.None? || data.value.keys == [] then entity.props else data.value
  }

  /** The data `add` records, or `None` when it returns `false`. */
  function RecordedData(entity: Entity, action: Action, dirtyFields: Option<seq<string>>,
                        data: Option<Dict<Value>>, policy: Policy): Option<Dict<Value>>
  {
    var saved := SaveFields(policy, SourceData(entity, data));
    if saved.keys == [] then None
    else if action == Delete then Some(entity.props)
    else if action == Update && dirtyFields.Some? && dirtyFields.value != [] then Some(Narrow(saved, dirtyFields.value))
    else Some(saved)
  }

  /** What `add` records, by action: nothing unless some searchable field is
      set (checked before the DELETE override); DELETE the entity's whole
      `toArray()`; UPDATE with dirty fields the narrowed selection, which may
      be empty; otherwise the selection itself. */
  lemma RecordedDataSpec(entity: Entity, action: Action, dirtyFields: Option<seq<string>>,
                         data: Option<Dict<Value>>, policy: Policy)
    ensures var src := SourceData(entity, data);
            var r := RecordedData(entity, action, dirtyFields, data, policy);
            && (r.None? <==> forall f | f in policy.m :: !(policy.m[f].searchable && IsSet(src, f)))
            && (r.Some? && action == Delete ==> r.value == entity.props)
            && (r.Some? && action == Update && dirtyFields.Some? && dirtyFields.value != [] ==>
                  forall f :: f in r.value.m <==> f in dirtyFields.value && f in SaveFields(policy, src).m)
            && (r.Some? && action != Delete && !(action == Update && dirtyFields.Some? && dirtyFields.value != []) ==>
                  r.value == SaveFields(policy, src))
  {
    var src := SourceData(entity, data);
    var saved := SaveFields(policy, src);
    if saved.keys != [] {
      var k := saved.keys[0];
      assert k in saved.m;
    } else {
      forall f | f in policy.m
        ensures !(policy.m[f].searchable && IsSet(src, f))
      {
        assert f !in saved.m;
      }
    }
  }

  /** The selection loop of `add`. */
  method SelectFields(policy: Policy, options: Dict<Value>) returns (saveFields: Dict<Value>)
    ensures saveFields == SaveFields(policy, options)
  {
    saveFields := EmptyDict();
    var i := 0;
    while i < |policy.keys|
      invariant 0 <= i <= |policy.keys|
      invariant saveFields == Collect(policy.keys[..i], SelectPick(policy, options))
    {
      var fieldName := policy.keys[i];
      var config := policy.m[fieldName];
      ghost var pick := SelectPick(policy, options);
      if config.searchable && IsSet(options, fieldName) {
        var v := if config.obfuscated then Str(Mask) else options.m[fieldName];
        assert pick(fieldName) == Some(v);
        saveFields := Put(saveFields, fieldName, v);
      } else {
        assert pick(fieldName) == None;
      }
      CollectStep(policy.keys, i, SelectPick(policy, options));
      i := i + 1;
    }
    assert policy.keys[..i] == policy.keys;
  }

  /** The UPDATE narrowing loop of `add`. */
  method NarrowFields(saveFields: Dict<Value>, dirty: seq<string>) returns (newData: Dict<Value>)
    ensures newData == Narrow(saveFields, dirty)
  {
    newData := EmptyDict();
    var k := 0;
    while k < |dirty|
      invariant 0 <= k <= |dirty|
      invariant newData == Collect(dirty[..k], NarrowPick(saveFields))
    {
      var field := dirty[k];
      ghost var pick := NarrowPick(saveFields);
      if IsSet(saveFields, field) {
        assert pick(field) == Some(saveFields.m[field]);
        newData := Put(newData, field, saveFields.m[field]);
      } else {
        assert pick(field) == None;
      }
      CollectStep(dirty, k, NarrowPick(saveFields));
      k := k + 1;
    }
    assert dirty[..k] == dirty;
  }

  /** The steps of `add` that build the data to record: defaulting,
      selection, the empty check, the DELETE override and the UPDATE
      narrowing; `None` stands for `add` returning `false`. */
  method BuildData(entity: Entity, action: Action, dirtyFields: Option<seq<string>>,
                   data: Option<Dict<Value>>, policy: Policy) returns (recorded: Option<Dict<Value>>)
    ensures recorded == RecordedData(entity, action, dirtyFields, data, policy)
  {
    var options := SourceData(entity, data);
    var saveFields := SelectFields(policy, options);
    if saveFields.keys == [] {
      return None;
    }
    var result := saveFields;
    if action == Delete {
      result := entity.props;
    }
    if action == Update && dirtyFields.Some? && dirtyFields.value != [] {
      result := NarrowFields(saveFields, dirtyFields.value);
    }
    return Some(result);
  }

  /** Whether `save` accepts an entry's `data`: the validator refuses an
      empty `data` (the rule of `validationDefault` does not allow empty),
      and that rule fails a COMMENT whose `comment` is empty. */
  predicate DataIsValid(action: Action, data: Dict<Value>)
  {
    data.keys != [] && (action != Comment || !IsEmpty(Lookup(data, "comment")))
  }

  /** An UPDATE whose dirty fields all fall outside the selection still
      returns an entry, but its data is empty and it is not stored. */
  lemma EmptyNarrowingNotStored(log: seq<Entry>, entity: Entity, userId: Value, dirty: seq<string>,
                                data: Option<Dict<Value>>, policy: Policy)
    requires dirty != []
    requires forall f | f in dirty :: f !in SaveFields(policy, SourceData(entity, data)).m
    ensures var r := AddResult(log, entity, Update, userId, Some(dirty), data, policy);
            r.Some? ==> r.value.data.keys == [] && !DataIsValid(Update, r.value.data)
  {
    var saved := SaveFields(policy, SourceData(entity, data));
    var n := Narrow(saved, dirty);
    assert n.m == map[];
    NoEntriesNoKeys(n);
  }

  /** The entry `add` builds for recorded data, numbered after the log. */
  function NewEntry(log: seq<Entry>, entity: Entity, action: Action, userId: Value, data: Dict<Value>): (e: Entry)
    ensures e.model == GetEntityModel(entity.source) && e.foreignKey == Id(entity)
    ensures e.revision == NextRevision(log, e.model, e.foreignKey)
  {
    var model := GetEntityModel(entity.source);
    Entry(model, Id(entity), action, data, OrNull(entity.contextType), OrNull(entity.context),
          OrNull(entity.contextSlug), userId, NextRevision(log, model, Id(entity)))
  }

  function AddResult(log: seq<Entry>, entity: Entity, action: Action, userId: Value,
                     dirtyFields: Option<seq<string>>, data: Option<Dict<Value>>, policy: Policy): Option<Entry>
  {
    match RecordedData(entity, action, dirtyFields, data, policy)
    case None => None
    case Some(d) => Some(NewEntry(log, entity, action, userId, d))
  }

  /** The data `addComment` passes to `add`. */
  function CommentData(comment: Value): Dict<Value>
  {
    Put(EmptyDict(), "comment", comment)
  }

  /** `addComment` goes through the searchable filter: it records only when
      the policy has a searchable `comment` field and the comment is not null,
      and then stores `{comment}` (masked if obfuscated); the entry is saved
      only when that stored comment is not empty. */
  lemma CommentSpec(log: seq<Entry>, entity: Entity, comment: Value, userId: Value, policy: Policy)
    ensures var r := AddResult(log, entity, Comment, userId, None, Some(CommentData(comment)), policy);
            && (r.Some? <==> "comment" in policy.m && policy.m["comment"].searchable && comment != Null)
            && (r.Some? ==> forall k :: k in r.value.data.m <==> k == "comment")
            && (r.Some? && !policy.m["comment"].obfuscated ==> r.value.data.m["comment"] == comment)
            && (r.Some? ==> (DataIsValid(Comment, r.value.data) <==> policy.m["comment"].obfuscated || !IsEmpty(comment)))
  {
    var data := CommentData(comment);
    assert SourceData(entity, Some(data)) == data;
    CommentSaved(policy, comment);
  }

  /** The selection `addComment`'s data goes through: at most the one field. */
  lemma CommentSaved(policy: Policy, comment: Value)
    ensures var saved := SaveFields(policy, CommentData(comment));
            && (forall k | k in saved.m :: k == "comment")
            && (saved.keys == [] <==> !("comment" in policy.m && policy.m["comment"].searchable && comment != Null))
  {
    var data := CommentData(comment);
    var saved := SaveFields(policy, data);
    SaveFieldsSpec(policy, data, "comment");
    forall k | k in saved.m
      ensures k == "comment"
    {
      SaveFieldsSpec(policy, data, k);
    }
    if saved.keys != [] {
      assert saved.keys[0] in saved.m;
    }
  }

  // ---------------------------------------------------------------------------
  // Display of stored data

  /** `_transformDataFields` on one field: unconfigured or unsearchable fields
      are left alone; a display parser wins over the type's transform. */
  function DisplayField(policy: Policy, f: string, v: Value, link: Option<RelationLink>): Value
  {
    if f !in policy.m || !policy.m[f].searchable then v
    else match policy.m[f].displayParser
      case Some(parse) => parse(f, v)
      case None => Display(policy.m[f].kind, f, v, link)
  }

  /** A snapshot with each field displayed; keys and their order are kept. */
  function DisplayData(policy: Policy, data: Dict<Value>, link: Option<RelationLink>): (r: Dict<Value>)
    ensures r.keys == data.keys
    ensures forall f | f in data.m :: r.m[f] == DisplayField(policy, f, data.m[f], link)
  {
    RawDict(data.keys, map f | f in data.m :: DisplayField(policy, f, data.m[f], link))
  }

  /** The inner loop of `_transformDataFields`: one snapshot, field by field. */
  method TransformEntityData(data: Dict<Value>, policy: Policy, link: Option<RelationLink>)
    returns (entityData: Dict<Value>)
    ensures entityData == DisplayData(policy, data, link)
  {
    entityData := data;
    var k := 0;
    while k < |data.keys|
      invariant 0 <= k <= |data.keys|
      invariant entityData.keys == data.keys
      invariant forall j | 0 <= j < k :: entityData.m[data.keys[j]] == DisplayField(policy, data.keys[j], data.m[data.keys[j]], link)
      invariant forall j | k <= j < |data.keys| :: entityData.m[data.keys[j]] == data.m[data.keys[j]]
    {
      var field := data.keys[k];
      var value := data.m[field];
      if field !in policy.m || !policy.m[field].searchable {
        k := k + 1;
        continue;
      }
      var shown: Value;
      match policy.m[field].displayParser {
        case Some(parse) =>
          shown := parse(field, value);
        case None =>
          shown := Display(policy.m[field].kind, field, value, link);
      }
      assert shown == DisplayField(policy, field, value, link);
      assert forall j | 0 <= j < |data.keys| && j != k :: data.keys[j] != field;
      entityData := Put(entityData, field, shown);
      k := k + 1;
    }
    forall f | f in data.m
      ensures entityData.m[f] == DisplayField(policy, f, data.m[f], link)
    {
      var j :| 0 <= j < |data.keys| && data.keys[j] == f;
    }
    assert entityData.m == DisplayData(policy, data, link).m;
  }

  /** `_transformDataFields`: rewrites every entry's data field by field;
      nothing else about an entry changes. */
  method TransformDataFields(history: seq<Entry>, policy: Policy, link: Option<RelationLink>)
    returns (shown: seq<Entry>)
    ensures |shown| == |history|
    ensures forall i | 0 <= i < |history| :: shown[i] == history[i].(data := DisplayData(policy, history[i].data, link))
  {
    shown := [];
    var index := 0;
    while index < |history|
      invariant 0 <= index <= |history|
      invariant |shown| == index
      invariant forall i | 0 <= i < index :: shown[i] == history[i].(data := DisplayData(policy, history[i].data, link))
    {
      var entityData := TransformEntityData(history[index].data, policy, link);
      shown := shown + [history[index].(data := entityData)];
      index := index + 1;
    }
  }

  // ---------------------------------------------------------------------------
  // The table

  class ModelHistoryTable {
    var log: seq<Entry>

    ghost predicate Valid()
      reads this
    {
      Numbered(log)
    }

    constructor ()
      ensures Valid() && log == []
    {
      log := [];
    }

    /** `getNextRevisionNumberForEntity`. */
    function GetNextRevisionNumberForEntity(entity: Entity): (r: int)
      reads this
      requires Valid()
      ensures r == CountKey(log, GetEntityModel(entity.source), Id(entity)) + 1
      ensures forall i | 0 <= i < |log| && HasKey(log[i], GetEntityModel(entity.source), Id(entity)) ::
                log[i].revision < r
    {
      NumberedNext(log, GetEntityModel(entity.source), Id(entity));
      NextRevision(log, GetEntityModel(entity.source), Id(entity))
    }

    /** `add`: returns `None` (PHP `false`) when no searchable field is set,
        otherwise the built entry, which is appended to the log only when it
        passes `validationDefault`. */
    method Add(entity: Entity, action: Action, userId: Value, dirtyFields: Option<seq<string>>,
               data: Option<Dict<Value>>, policy: Policy) returns (r: Option<Entry>)
      requires Valid()
      modifies this
      ensures Valid()
      ensures r == AddResult(old(log), entity, action, userId, dirtyFields, data, policy)
      ensures r.Some? ==> r.value.revision == CountKey(old(log), r.value.model, r.value.foreignKey) + 1
      ensures log == if r.Some? && DataIsValid(action, r.value.data) then old(log) + [r.value] else old(log)
    {
      var recorded := BuildData(entity, action, dirtyFields, data, policy);
      if recorded.None? {
        return None;
      }
      var entry := NewEntry(log, entity, action, userId, recorded.value);
      NumberedNext(log, entry.model, entry.foreignKey);
      if DataIsValid(action, recorded.value) {
        NumberedAppend(log, entry);
        log := log + [entry];
      }
      return Some(entry);
    }

    /** `addComment`: `add` with data `{comment}`. */
    method AddComment(entity: Entity, comment: Value, userId: Value, policy: Policy) returns (r: Option<Entry>)
      requires Valid()
      modifies this
      ensures Valid()
      ensures r == AddResult(old(log), entity, Comment, userId, None, Some(CommentData(comment)), policy)
      ensures log == if r.Some? && DataIsValid(Comment, r.value.data) then old(log) + [r.value] else old(log)
    {
      r := Add(entity, Comment, userId, None, Some(CommentData(comment)), policy);
    }

    /** `getModelHistory` without paging: a key's entries newest first, each
        displayed. */
    method GetModelHistory(model: string, foreignKey: Value, policy: Policy, link: Option<RelationLink>)
      returns (shown: seq<Entry>)
      requires Valid()
      ensures var history := NewestFirst(log, model, foreignKey, None);
              && |shown| == |history|
              && (forall i | 0 <= i < |history| ::
                    shown[i] == history[i].(data := DisplayData(policy, history[i].data, link)))
              && Descending(shown)
    {
      var history := NewestFirst(log, model, foreignKey, None);
      NewestFirstDescending(log, model, foreignKey, None);
      shown := TransformDataFields(history, policy, link);
    }

    /** `getModelHistoryCount` without extra conditions. */
    function GetModelHistoryCount(model: string, foreignKey: Value): (n: nat)
      reads this
      requires Valid()
      ensures n == NextRevision(log, model, foreignKey) - 1
      ensures n == 0 <==> forall i | 0 <= i < |log| :: !HasKey(log[i], model, foreignKey)
    {
      NumberedNext(log, model, foreignKey);
      CountKey(log, model, foreignKey)
    }

    /** `buildDiff`: `NoDiff` for a first revision; otherwise `None` when the
        live entity cannot be found, else the three buckets computed against
        the entry's earlier revisions, newest first. */
    method BuildDiff(entry: Entry, policy: Policy, live: Option<Dict<Value>>) returns (r: Option<Diff.Diff>)
      requires Valid()
      ensures entry.revision == 1 ==> r == Some(Diff.NoDiff)
      ensures entry.revision != 1 && live.None? ==> r == None
      ensures entry.revision != 1 && live.Some? ==>
                r == Some(Diff.DiffOf(entry.data, DataOf(Previous(log, entry)), policy.keys, live.value))
    {
      if entry.revision == 1 {
        return Some(Diff.NoDiff);
      }
      var previousRevisions := Previous(log, entry);
      if live.None? {
        return None;
      }
      var d := Diff.Compute(entry.data, DataOf(previousRevisions), policy.keys, live.value);
      return Some(d);
    }
  }

  /** The revisions of an entry's key before it, newest first. */
  function Previous(log: seq<Entry>, entry: Entry): seq<Entry>
  {
    NewestFirst(log, entry.model, entry.foreignKey, Some(entry.revision))
  }

  /** In a numbered log those are exactly the earlier revisions of the key,
      strictly descending. */
  lemma PreviousSpec(log: seq<Entry>, entry: Entry)
    requires Numbered(log)
    ensures forall x | x in Previous(log, entry) :: x in log && Listed(x, entry.model, entry.foreignKey, Some(entry.revision))
    ensures forall i | 0 <= i < |log| && Listed(log[i], entry.model, entry.foreignKey, Some(entry.revision)) ::
              log[i] in Previous(log, entry)
    ensures Descending(Previous(log, entry))
  {
    NewestFirstMembers(log, entry.model, entry.foreignKey, Some(entry.revision));
    NewestFirstDescending(log, entry.model, entry.foreignKey, Some(entry.revision));
    assert Previous(log, entry) == NewestFirst(log, entry.model, entry.foreignKey, Some(entry.revision));
  }

  function DataOf(entries: seq<Entry>): (r: seq<Dict<Value>>)
    ensures |r| == |entries| && forall i | 0 <= i < |entries| :: r[i] == entries[i].data
  {
    seq(|entries|, i requires 0 <= i < |entries| => entries[i].data)
  }
}

# Model history: a verified model of the revision log

This project models the core of the CakePHP plugin `cake-model-history`.
The plugin keeps a revision log of entities: `ModelHistoryTable` writes one entry per save, delete or comment.
It numbers the entries per (model, foreign key).
It renders stored values for display through per-field transforms.
It diffs a revision against the revisions before it and the entity's current values.

The model has four modules:

- `Values` (values.dfy): the PHP values stored in a revision (`Value`), PHP's `empty`, `isset` and string conversion.
  It also defines the ordered dictionary `Dict` that stands for a PHP array with string keys.
  `Collect` is the fold behind every "loop over names, conditionally assign" in the source.
- `Transforms` (transforms.dfy): `StringTransform`, `RelationTransform` and `MassAssociationTransform`, and PHP's `trim`, `implode(', ', …)` and `explode(',', …)`.
- `Diff` (diff.dfy): the three passes of `buildDiff`.
  Each pass is stated once as a function and once as the source's nested loops, which are proved equal to the function.
- `ModelHistory` (history.dfy): entities, entries, the field policy, and the class `ModelHistoryTable`.
  The class holds the log as a sequence of entries in insertion order.
  Its invariant `Numbered` says each entry's revision is one more than the number of earlier entries with the same key.

A field policy (`getFields()`) is a `Dict<FieldConfig>` in configuration order.
Some things the source takes from the ORM or from code that is not part of this model become parameters:

- the live entity's values in `BuildDiff`;
- the relation-link function of the Historizable behaviour;
- a table's display field in `MassAssociationSave`.

## Model

| member | source | states |
|---|---|---|
| ModelHistory.GetEntityModel | src/Model/Table/ModelHistoryTable.php:218-225 | a source ending in "Table" loses exactly that suffix; any other source is returned as it is |
| ModelHistory.EntityModelOfTable | src/Model/Table/ModelHistoryTable.php:221-223 | stripping is exact: `GetEntityModel(m + "Table") == m` for every `m` |
| ModelHistory.MaxRevision | src/Model/Table/ModelHistoryTable.php:196-204 | none exactly when no entry has the key; otherwise it bounds every revision stored for the key |
| ModelHistory.MaxRevisionAttained | src/Model/Table/ModelHistoryTable.php:196-204 | the maximum is the revision of some stored entry of the key |
| ModelHistory.NextRevision | src/Model/Table/ModelHistoryTable.php:193-210 | 1 when no entry has the key; always above every revision stored for the key |
| ModelHistory.NextRevisionOtherKey | src/Model/Table/ModelHistoryTable.php:198-201 | entries for other (model, foreign key) pairs do not change a key's next revision |
| ModelHistory.NumberedNext | src/Model/Table/ModelHistoryTable.php:193-210 | in a log built by `add`, the maximum revision of a key is its entry count, so the n-th entry of a key gets revision n |
| ModelHistory.NumberedAppend | src/Model/Table/ModelHistoryTable.php:126-137 | appending an entry numbered by `getNextRevisionNumberForEntity` keeps the log numbered |
| ModelHistory.NumberedBounds | src/Model/Table/ModelHistoryTable.php:193-210 | every stored revision lies between 1 and its key's entry count |
| ModelHistory.NumberedIncreasing | src/Model/Table/ModelHistoryTable.php:193-210 | revisions of one key strictly increase along the log, so (model, foreign key, revision) is unique |
| ModelHistory.NewestFirstMembers | src/Model/Table/ModelHistoryTable.php:280-282 | the listing holds exactly the log's entries with the key, below the bound when one is given |
| ModelHistory.NewestFirstDescending | src/Model/Table/ModelHistoryTable.php:282 | in a numbered log the listing is in strictly descending revision order |
| ModelHistory.SaveFieldsSpec | src/Model/Table/ModelHistoryTable.php:85-92 | the selection keeps exactly the searchable policy fields set in the data, in policy order; obfuscated ones are stored as the 16-character mask |
| ModelHistory.SelectFields | src/Model/Table/ModelHistoryTable.php:85-92 | the selection loop computes `SaveFields` |
| ModelHistory.NarrowSpec | src/Model/Table/ModelHistoryTable.php:103-111 | the UPDATE narrowing keeps exactly the dirty names that survived selection, with their selected values, in `dirtyFields` order |
| ModelHistory.NarrowFields | src/Model/Table/ModelHistoryTable.php:104-109 | the narrowing loop computes `Narrow` |
| ModelHistory.RecordedDataSpec | src/Model/Table/ModelHistoryTable.php:77-111 | nothing is recorded exactly when no searchable field is set, checked before the DELETE override; DELETE stores the whole `toArray()`; UPDATE with dirty fields stores the narrowed selection; other actions store the selection |
| ModelHistory.BuildData | src/Model/Table/ModelHistoryTable.php:73-111 | the steps of `add` that build the data compute `RecordedData`: `None` for `false`, else the data to record |
| ModelHistory.EmptyNarrowingNotStored | src/Model/Table/ModelHistoryTable.php:103-111 | an UPDATE whose dirty fields all fall outside the selection returns an entry with empty data, which `save` refuses |
| ModelHistory.NewEntry | src/Model/Table/ModelHistoryTable.php:126-136 | the entry carries `getEntityModel`, the entity's id and the next revision for that key |
| ModelHistory.CommentSpec | src/Model/Table/ModelHistoryTable.php:48-60 | `addComment` records only when the policy has a searchable `comment` field and the comment is not null; the stored data then has only `comment`, unmasked unless obfuscated; the entry passes validation exactly when the stored comment is not empty |
| ModelHistory.CommentSaved | src/Model/Table/ModelHistoryTable.php:178-185 | the selection of `addComment`'s data holds at most `comment`, and it is empty exactly when `comment` is not a searchable policy field or is null |
| ModelHistory.DisplayData | src/Model/Table/ModelHistoryTable.php:151-166 | keys and their order are kept; each field is rendered by `DisplayField`: untouched when unconfigured or not searchable, else the display parser, else the kind's display transform |
| ModelHistory.TransformEntityData | src/Model/Table/ModelHistoryTable.php:153-164 | the per-field loop computes `DisplayData` of the snapshot |
| ModelHistory.TransformDataFields | src/Model/Table/ModelHistoryTable.php:148-168 | the same number of entries; each entry is unchanged except that its data is `DisplayData` of the old data |
| ModelHistory.PreviousSpec | src/Model/Table/ModelHistoryTable.php:321-328 | the revisions `buildDiff` compares against are exactly the key's earlier revisions, newest first |
| ModelHistory.ModelHistoryTable.GetNextRevisionNumberForEntity | src/Model/Table/ModelHistoryTable.php:193-210 | the next revision is the key's entry count plus one, and above every stored revision of the key |
| ModelHistory.ModelHistoryTable.Add | src/Model/Table/ModelHistoryTable.php:71-139 | the result is `None` (PHP `false`) or the built entry, as `AddResult` says; its revision is the key's entry count plus one; the log grows by that entry exactly when `save` accepts it (its data is not empty and passes the rule of lines 50-56), and is otherwise unchanged; the log stays numbered |
| ModelHistory.ModelHistoryTable.AddComment | src/Model/Table/ModelHistoryTable.php:178-185 | `add` with action COMMENT and data `{comment}`, with the same effect on the log |
| ModelHistory.ModelHistoryTable.GetModelHistory | src/Model/Table/ModelHistoryTable.php:273-289 | the key's entries, newest first in strictly descending revision order, each with its data rendered by `DisplayData` |
| ModelHistory.ModelHistoryTable.GetModelHistoryCount | src/Model/Table/ModelHistoryTable.php:298-307 | the number of entries of the key: one less than its next revision, and 0 exactly when the key has none |
| ModelHistory.ModelHistoryTable.BuildDiff | src/Model/Table/ModelHistoryTable.php:315-400 | revision 1 gives `NoDiff` (the empty array); a missing live entity gives `None`; otherwise the three buckets of `Diff.DiffOf` over the earlier revisions of the key, newest first |
| Diff.FindFirstSet | src/Model/Table/ModelHistoryTable.php:338-339 | the loop finds the newest earlier revision in which the field is set |
| Diff.FirstSet | src/Model/Table/ModelHistoryTable.php:338-339 | the index found is set, and no newer revision sets the field; none when no revision sets it |
| Diff.ChangedPass | src/Model/Table/ModelHistoryTable.php:336-350 | the pass-1 loop computes `Changed` |
| Diff.ChangedSpec | src/Model/Table/ModelHistoryTable.php:337-348 | a field of the revision is in `changed` exactly when its newest earlier value is set and not an array; `old` is that value and `new` is the revision's, even when they are equal |
| Diff.ScanChangedBefore | src/Model/Table/ModelHistoryTable.php:357-381 | the pass-2 inner loop computes `ScanBefore` |
| Diff.ScanBeforeSound | src/Model/Table/ModelHistoryTable.php:357-381 | a change found in pass 2 comes from the newest earlier revision whose value differs from the live value; every newer revision that sets the field holds an equal, non-array value; a live date whose `Y-m-d'T'H:i:s` form differs from the stored value is reported in that form, otherwise the date itself is reported |
| Diff.ScanBeforeComplete | src/Model/Table/ModelHistoryTable.php:357-381 | conversely, such a revision is the one pass 2 reports |
| Diff.ScanBeforeNotDiffable | src/Model/Table/ModelHistoryTable.php:358-363 | pass 2 reports nothing for a field whose newest earlier value is an array or that no earlier revision sets |
| Diff.ChangedBeforePass | src/Model/Table/ModelHistoryTable.php:356-382 | the pass-2 loop computes `ChangedBefore` |
| Diff.ChangedBeforeSpec | src/Model/Table/ModelHistoryTable.php:356-382 | a policy field outside `changed` whose newest differing earlier value is preceded only by equal values lands in `changedBefore` with that value against the live one |
| Diff.UnchangedField | src/Model/Table/ModelHistoryTable.php:387-395 | the pass-3 inner loop gives the live value exactly for a field that is diffable and not claimed by passes 1 and 2 |
| Diff.UnchangedPass | src/Model/Table/ModelHistoryTable.php:386-397 | the pass-3 loop computes `Unchanged` |
| Diff.UnchangedSpec | src/Model/Table/ModelHistoryTable.php:386-397 | a field is in `unchanged` exactly when it is a diffable policy field outside the other two buckets; its newest earlier value then equals the live value, which is what is reported, and the live value is never a date |
| Diff.Compute | src/Model/Table/ModelHistoryTable.php:336-399 | the three passes in order compute `DiffOf` |
| Diff.BucketsDisjoint | src/Model/Table/ModelHistoryTable.php:336-397 | the three buckets are pairwise disjoint; a field whose newest earlier value is an array, or that no earlier revision sets, is in none; `changed` holds only fields of the revision; the other two hold only policy fields |
| Diff.TargetFieldsStayInChanged | src/Model/Table/ModelHistoryTable.php:356-397 | a field of the revision never lands in `changedBefore` or `unchanged` |
| Transforms.Trim | src/Model/Transform/StringTransform.php:20 | the result neither starts nor ends with a PHP trim character |
| Transforms.TrimSlice | src/Model/Transform/StringTransform.php:20 | the result is one contiguous slice of the input, with only trim characters (space, \t, \n, \r, \0, \x0B) removed around it |
| Transforms.TrimIdempotent | src/Model/Transform/StringTransform.php:20 | trimming twice is trimming once |
| Transforms.StringSave | src/Model/Transform/StringTransform.php:10-13 | the entity's property named `fieldname` (null when absent); the configuration plays no part |
| Transforms.StringDisplay | src/Model/Transform/StringTransform.php:18-21 | null exactly for an array; otherwise a string with no trim character at either end |
| Transforms.StringDisplayIdempotent | src/Model/Transform/StringTransform.php:20 | displaying a displayed non-array value gives the same value |
| Transforms.StringDisplayClean | src/Model/Transform/StringTransform.php:20 | a string with no trim character at either end is displayed unchanged |
| Transforms.RelationSave | src/Model/Transform/RelationTransform.php:13-16 | the value is returned unchanged for every field name and model |
| Transforms.RelationDisplay | src/Model/Transform/RelationTransform.php:21-33 | the relation link's result when the behaviour offers one, else the value; the derived table name plays no part |
| Transforms.RelationRoundTrip | src/Model/Transform/RelationTransform.php:13-33 | without a relation link, display after save gives back the value |
| Transforms.MassAssociationSave | src/Model/Transform/MassAssociationTransform.php:20-36 | a non-empty array under `config.name` becomes the array of its entities' display-field values, same length and order; anything else under `config.name` is returned unchanged; `fieldname` plays no part |
| Transforms.MassAssociationDisplay | src/Model/Transform/MassAssociationTransform.php:46-63 | an array is its elements' texts joined with ", "; anything else is the relation link's result when offered, else the value |
| Transforms.MassAssociationDisplayList | src/Model/Transform/MassAssociationTransform.php:48-50 | an empty array displays as ""; one element as its text; comma-free texts are read back from the joined string |
| Transforms.UnjoinJoin | src/Model/Transform/MassAssociationTransform.php:49 | splitting a ", "-joined non-empty list of comma-free texts gives the list back |
| Transforms.Display | src/Model/Table/ModelHistoryTable.php:162-163 | the display transform the field's kind selects |
| Values.Put | src/Model/Table/ModelHistoryTable.php:91 | PHP array assignment: the key maps to the value; an existing key keeps its position, a new key goes last |
| Values.NoEntriesNoKeys | src/Model/Table/ModelHistoryTable.php:94 | a dictionary has no entries exactly when it has no keys, so the `empty($saveFields)` test can look at either |
| Values.Collect | src/Model/Table/ModelHistoryTable.php:85-92 | the fold of a conditional-assignment loop: the keys are the accepted names, each mapped to the value its test gives |
| Values.CollectKeys | src/Model/Table/ModelHistoryTable.php:85-92 | over distinct names, the keys come out in the order of the names |

## Left out

- ORM plumbing is not part of this model: `initialize` (JSON column types, the Timestamp behaviour, the Users association) and `getEntityWithHistory`, a pure `contain` query.
  `TableRegistry`, `Hash::merge` and `Filter::get` become parameters: the field policy, the optional `data` and `dirtyFields`, and the field kind.
- Framework validation beyond the data rule is not modelled. `DataIsValid` includes the validator's refusal of an empty `data`, which applies because the rule of `validationDefault` does not allow empty values.
- The JSON round-trip of the `data` column is not modelled: the log stores values as they are given.
- Storage is a single-writer in-memory sequence. The read-then-save of revision numbering (no locking) is not modelled for concurrent writers.
- ModelHistory.ModelHistoryTable.GetModelHistory: paging (`limit`, `page`), extra `conditions` and the `Users` contain are left out; only the key filter, the descending order and the display rewrite are modelled.
- ModelHistory.ModelHistoryTable.GetModelHistoryCount: extra `conditions` are left out.
- ModelHistory.ModelHistoryTable.BuildDiff: the live entity is a parameter; `None` stands for the exception `get` throws when the record is missing.
- Comparison of stored and live values is datatype equality, not PHP's loose `!=`.
  A date/time object carries its `Y-m-d'T'H:i:s` text (`iso`) in place of calling `format`.
  One consequence is that a live date is never reported as unchanged: it cannot equal both its stored text and itself.
- The Inflector-derived table names in both relation-aware `display` methods are never used in a result, so they are not modelled. The translated validation message is not modelled either.
- Transforms.MassAssociationSave: requires every member of an associated array to be an entity, because the source calls `source()` on each and fails otherwise; the display field of each entity's table is a parameter.
- Transforms.StringDisplay: objects are converted through the text they carry, standing for their `__toString`; PHP's behaviour for objects without one (an error) is not modelled.
- Transforms.StringDisplayIdempotent: holds only for non-array values, since `trim` of an array gives null and `trim` of null gives "".
- The view helper and the test tables are not part of this model.
- The entry's `created` timestamp and the `Users` association are not modelled.

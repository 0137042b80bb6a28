/** The three-pass diff of a revision against the revisions before it and
    the entity's live values (`ModelHistoryTable::buildDiff`). Earlier
    revisions are given by their data, newest first. */
module Diff {
  import opened Values

  datatype Change = Change(oldValue: Value, newValue: Value)

  /** `NoDiff` is the empty array returned for a first revision. */
  datatype Diff =
    | NoDiff
    | Buckets(changed: Dict<Change>, changedBefore: Dict<Change>, unchangedFields: Dict<Value>)

  /** Index of the newest earlier revision in which `f` is set. */
  function FirstSet(prev: seq<Dict<Value>>, f: string): (r: Option<nat>)
    ensures r.Some? ==> r.value < |prev| && IsSet(prev[r.value], f)
    ensures r.Some? ==> forall i | 0 <= i < r.value :: !IsSet(prev[i], f)
    ensures r.None? ==> forall i | 0 <= i < |prev| :: !IsSet(prev[i], f)
    decreases |prev|
  {
    if prev == [] then None
    else if IsSet(prev[0], f) then Some(0)
    else match FirstSet(prev[1..], f)
      case None => None
      case Some(j) => Some(j + 1)
  }

  /** The newest earlier value of `f` when it is not an array. */
  predicate Diffable(prev: seq<Dict<Value>>, f: string)
  {
    FirstSet(prev, f).Some? && !prev[FirstSet(prev, f).value].m[f].Arr?
  }

  function Newest(prev: seq<Dict<Value>>, f: string): Value
    requires FirstSet(prev, f).Some?
  {
    prev[FirstSet(prev, f).value].m[f]
  }

  // ---------------------------------------------------------------------------
  // Pass 1: fields of the revision itself against their newest earlier value.

  function ChangedPick(target: Dict<Value>, prev: seq<Dict<Value>>): string -> Option<Change>
  {
    f => if f in target.m && Diffable(prev, f) then Some(Change(Newest(prev, f), target.m[f])) else None
  }

  function Changed(target: Dict<Value>, prev: seq<Dict<Value>>): Dict<Change>
  {
    Collect(target.keys, ChangedPick(target, prev))
  }

  // ---------------------------------------------------------------------------
  // Pass 2: other policy fields against the live entity.

  /** Walks the earlier revisions newest first: unset ones are passed over,
      an array or a field already in `changed` ends the walk with nothing,
      a value that differs from the live one is recorded, an equal one is
      passed over. A live date is compared in its `iso` form first. */
  function ScanBefore(prev: seq<Dict<Value>>, f: string, live: Value, claimed: bool): Option<Change>
    decreases |prev|
  {
    if prev == [] then None
    else if !IsSet(prev[0], f) then ScanBefore(prev[1..], f, live, claimed)
    else
      var stored := prev[0].m[f];
      if stored.Arr? || claimed then None
      else if live.DateTime? && Str(live.iso) != stored then Some(Change(stored, Str(live.iso)))
      else if stored != live then Some(Change(stored, live))
      else ScanBefore(prev[1..], f, live, claimed)
  }

  /** Whether pass 2 reports a stored value against the live one. */
  predicate Differs(stored: Value, live: Value)
  {
    (live.DateTime? && Str(live.iso) != stored) || stored != live
  }

  /** The `new` side pass 2 reports for a differing stored value. */
  function Shown(stored: Value, live: Value): Value
  {
    if live.DateTime? && Str(live.iso) != stored then Str(live.iso) else live
  }

  function BeforePick(prev: seq<Dict<Value>>, live: Dict<Value>, changed: Dict<Change>): string -> Option<Change>
  {
    f => ScanBefore(prev, f, Lookup(live, f), f in changed.m)
  }

  function ChangedBefore(names: seq<string>, prev: seq<Dict<Value>>, live: Dict<Value>,
                         changed: Dict<Change>): Dict<Change>
  {
    Collect(names, BeforePick(prev, live, changed))
  }

  // ---------------------------------------------------------------------------
  // Pass 3: every remaining policy field recorded before, with its live value.

  function UnchangedPick(prev: seq<Dict<Value>>, live: Dict<Value>, changed: Dict<Change>,
                         before: Dict<Change>): string -> Option<Value>
  {
    f => if Diffable(prev, f) && f !in changed.m && f !in before.m then Some(Lookup(live, f)) else None
  }

  function Unchanged(names: seq<string>, prev: seq<Dict<Value>>, live: Dict<Value>,
                     changed: Dict<Change>, before: Dict<Change>): Dict<Value>
  {
    Collect(names, UnchangedPick(prev, live, changed, before))
  }

  /** The diff of a revision (not the first) with data `target`, against the
      earlier revisions `prev` (newest first), the policy's field names and
      the live entity's values. */
  function DiffOf(target: Dict<Value>, prev: seq<Dict<Value>>, names: seq<string>,
                  live: Dict<Value>): Diff
  {
    var changed := Changed(target, prev);
    var before := ChangedBefore(names, prev, live, changed);
    Buckets(changed, before, Unchanged(names, prev, live, changed, before))
  }

  // ---------------------------------------------------------------------------
  // The passes as the source runs them: nested loops that stop at the first
  // revision deciding a field.

  method FindFirstSet(prev: seq<Dict<Value>>, f: string) returns (r: Option<nat>)
    ensures r == FirstSet(prev, f)
  {
    var j := 0;
    while j < |prev|
      invariant 0 <= j <= |prev|
      invariant forall i | 0 <= i < j :: !IsSet(prev[i], f)
    {
      if IsSet(prev[j], f) {
        FirstSetAt(prev, f, j);
        return Some(j);
      }
      j := j + 1;
    }
    FirstSetAt(prev, f, |prev|);
    return None;
  }

  method ScanChangedBefore(prev: seq<Dict<Value>>, f: string, live: Value, claimed: bool)
    returns (r: Option<Change>)
    ensures r == ScanBefore(prev, f, live, claimed)
  {
    var j := 0;
    while j < |prev|
      invariant 0 <= j <= |prev|
      invariant ScanBefore(prev, f, live, claimed) == ScanBefore(prev[j..], f, live, claimed)
    {
      assert prev[j..][1..] == prev[j + 1..];
      if !IsSet(prev[j], f) {
        j := j + 1;
        continue;
      }
      var stored := prev[j].m[f];
      if stored.Arr? || claimed {
        return None;
      }
      if live.DateTime? && Str(live.iso) != stored {
        return Some(Change(stored, Str(live.iso)));
      }
      if stored != live {
        return Some(Change(stored, live));
      }
      j := j + 1;
    }
    return None;
  }

  /** Pass 1 as the source's loop over the revision's fields. */
  method ChangedPass(target: Dict<Value>, prev: seq<Dict<Value>>) returns (changed: Dict<Change>)
    ensures changed == Changed(target, prev)
  {
    changed := EmptyDict();
    var i := 0;
    while i < |target.keys|
      invariant 0 <= i <= |target.keys|
      invariant changed == Collect(target.keys[..i], ChangedPick(target, prev))
    {
      var f := target.keys[i];
      var j := FindFirstSet(prev, f);
      if j.Some? && !prev[j.value].m[f].Arr? {
        changed := Put(changed, f, Change(prev[j.value].m[f], target.m[f]));
      }
      CollectStep(target.keys, i, ChangedPick(target, prev));
      i := i + 1;
    }
    assert target.keys[..i] == target.keys;
  }

  /** Pass 2 as the source's loop over the policy's fields. */
  method ChangedBeforePass(names: seq<string>, prev: seq<Dict<Value>>, live: Dict<Value>, changed: Dict<Change>)
    returns (before: Dict<Change>)
    ensures before == ChangedBefore(names, prev, live, changed)
  {
    before := EmptyDict();
    var i := 0;
    while i < |names|
      invariant 0 <= i <= |names|
      invariant before == Collect(names[..i], BeforePick(prev, live, changed))
    {
      var f := names[i];
      var c := ScanChangedBefore(prev, f, Lookup(live, f), f in changed.m);
      if c.Some? {
        before := Put(before, f, c.value);
      }
      CollectStep(names, i, BeforePick(prev, live, changed));
      i := i + 1;
    }
    assert names[..i] == names;
  }

  /** Pass 3 for one field: its live value when its newest earlier value is
      not an array and neither earlier pass claimed it. */
  method UnchangedField(f: string, prev: seq<Dict<Value>>, live: Dict<Value>,
                        changed: Dict<Change>, before: Dict<Change>)
    returns (r: Option<Value>)
    ensures r == UnchangedPick(prev, live, changed, before)(f)
  {
    var j := FindFirstSet(prev, f);
    if j.Some? && !prev[j.value].m[f].Arr? && f !in changed.m && f !in before.m {
      return Some(Lookup(live, f));
    }
    return None;
  }

  /** Pass 3 as the source's loop over the policy's fields. */
  method UnchangedPass(names: seq<string>, prev: seq<Dict<Value>>, live: Dict<Value>,
                       changed: Dict<Change>, before: Dict<Change>)
    returns (same: Dict<Value>)
    ensures same == Unchanged(names, prev, live, changed, before)
  {
    same := EmptyDict();
    var i := 0;
    while i < |names|
      invariant 0 <= i <= |names|
      invariant same == Collect(names[..i], UnchangedPick(prev, live, changed, before))
    {
      var f := names[i];
      var kept := UnchangedField(f, prev, live, changed, before);
      if kept.Some? {
        same := Put(same, f, kept.value);
      }
      CollectStep(names, i, UnchangedPick(prev, live, changed, before));
      i := i + 1;
    }
    assert names[..i] == names;
  }

  /** `buildDiff` after its first-revision check: the three passes in order. */
  method Compute(target: Dict<Value>, prev: seq<Dict<Value>>, names: seq<string>, live: Dict<Value>)
    returns (d: Diff)
    ensures d == DiffOf(target, prev, names, live)
  {
    var changed := ChangedPass(target, prev);
    var before := ChangedBeforePass(names, prev, live, changed);
    var same := UnchangedPass(names, prev, live, changed, before);
    d := Buckets(changed, before, same);
  }

  // ---------------------------------------------------------------------------
  // What the diff means.

  /** `FirstSet` is determined by where `f` is first set. */
  lemma {:induction false} FirstSetAt(prev: seq<Dict<Value>>, f: string, j: nat)
    requires j <= |prev|
    requires forall i | 0 <= i < j :: !IsSet(prev[i], f)
    requires j < |prev| ==> IsSet(prev[j], f)
    ensures FirstSet(prev, f) == if j < |prev| then Some(j) else None
    decreases |prev|
  {
    if prev != [] && j > 0 {
      FirstSetAt(prev[1..], f, j - 1);
    }
  }

  /** A change recorded in pass 2 comes from the newest earlier revision whose
      value differs from the live one; every newer revision that records the
      field holds a non-array value equal to it. */
  lemma {:induction false} ScanBeforeSound(prev: seq<Dict<Value>>, f: string, live: Value, claimed: bool)
    returns (j: nat)
    requires ScanBefore(prev, f, live, claimed).Some?
    ensures !claimed && j < |prev| && IsSet(prev[j], f)
    ensures !prev[j].m[f].Arr? && Differs(prev[j].m[f], live)
    ensures ScanBefore(prev, f, live, claimed) == Some(Change(prev[j].m[f], Shown(prev[j].m[f], live)))
    ensures forall i | 0 <= i < j && IsSet(prev[i], f) :: !prev[i].m[f].Arr? && !Differs(prev[i].m[f], live)
    decreases |prev|
  {
    if !IsSet(prev[0], f) || !Differs(prev[0].m[f], live) {
      var k := ScanBeforeSound(prev[1..], f, live, claimed);
      j := k + 1;
    } else {
      j := 0;
    }
  }

  /** Conversely, such a revision is what pass 2 records. */
  lemma {:induction false} ScanBeforeComplete(prev: seq<Dict<Value>>, f: string, live: Value, claimed: bool, j: nat)
    requires !claimed && j < |prev| && IsSet(prev[j], f)
    requires !prev[j].m[f].Arr? && Differs(prev[j].m[f], live)
    requires forall i | 0 <= i < j && IsSet(prev[i], f) :: !prev[i].m[f].Arr? && !Differs(prev[i].m[f], live)
    ensures ScanBefore(prev, f, live, claimed) == Some(Change(prev[j].m[f], Shown(prev[j].m[f], live)))
    decreases |prev|
  {
    if j > 0 {
      ScanBeforeComplete(prev[1..], f, live, claimed, j - 1);
    }
  }

  /** Pass 2 records nothing for a field whose newest earlier value is an
      array, or that no earlier revision sets. */
  lemma {:induction false} ScanBeforeNotDiffable(prev: seq<Dict<Value>>, f: string, live: Value, claimed: bool)
    requires !Diffable(prev, f)
    ensures ScanBefore(prev, f, live, claimed) == None
    decreases |prev|
  {
    if prev != [] && !IsSet(prev[0], f) {
      var k := FirstSet(prev[1..], f);
      assert k.Some? ==> prev[1..][k.value] == prev[k.value + 1];
      ScanBeforeNotDiffable(prev[1..], f, live, claimed);
    }
  }

  /** Pass 1: a field of the revision is in `changed` exactly when its newest
      earlier value is set and is not an array, paired with the revision's
      value, even when the two are equal. */
  lemma ChangedSpec(target: Dict<Value>, prev: seq<Dict<Value>>, f: string)
    ensures var c := Changed(target, prev);
            && (f in c.m <==> f in target.m && Diffable(prev, f))
            && (f in c.m ==> c.m[f] == Change(Newest(prev, f), target.m[f]))
  {
  }

  /** The three buckets never share a field; a field whose newest earlier
      value is an array, or that no earlier revision sets, is in none of them;
      and `changed` only holds fields of the revision itself. */
  lemma BucketsDisjoint(target: Dict<Value>, prev: seq<Dict<Value>>, names: seq<string>,
                        live: Dict<Value>, f: string)
    ensures var d := DiffOf(target, prev, names, live);
            && !(f in d.changed.m && f in d.changedBefore.m)
            && !(f in d.changed.m && f in d.unchangedFields.m)
            && !(f in d.changedBefore.m && f in d.unchangedFields.m)
            && (!Diffable(prev, f) ==> f !in d.changed.m && f !in d.changedBefore.m && f !in d.unchangedFields.m)
            && (f in d.changed.m ==> f in target.m)
            && (f in d.changedBefore.m || f in d.unchangedFields.m ==> f in names)
  {
    var changed := Changed(target, prev);
    if !Diffable(prev, f) {
      ScanBeforeNotDiffable(prev, f, Lookup(live, f), f in changed.m);
    }
    if f in changed.m {
      var s := ScanBefore(prev, f, Lookup(live, f), true);
      if s.Some? {
        var _ := ScanBeforeSound(prev, f, Lookup(live, f), true);
      }
    }
  }

  /** A field of the revision that pass 1 can diff is never reported again by
      passes 2 and 3, so those only hold fields the revision does not record
      (or records with no diffable earlier value). */
  lemma TargetFieldsStayInChanged(target: Dict<Value>, prev: seq<Dict<Value>>, names: seq<string>,
                                  live: Dict<Value>, f: string)
    requires f in target.m
    ensures var d := DiffOf(target, prev, names, live);
            f !in d.changedBefore.m && f !in d.unchangedFields.m
  {
    BucketsDisjoint(target, prev, names, live, f);
  }

  /** Pass 2: a policy field outside `changed` is in `changedBefore` exactly
      when some earlier revision holds a value that differs from the live
      one and every newer revision recording it holds an equal, non-array
      value; the recorded change is that revision's value against the live one. */
  lemma ChangedBeforeSpec(target: Dict<Value>, prev: seq<Dict<Value>>, names: seq<string>,
                          live: Dict<Value>, f: string, j: nat)
    requires f in names && f !in Changed(target, prev).m
    requires j < |prev| && IsSet(prev[j], f) && !prev[j].m[f].Arr? && Differs(prev[j].m[f], Lookup(live, f))
    requires forall i | 0 <= i < j && IsSet(prev[i], f) :: !prev[i].m[f].Arr? && !Differs(prev[i].m[f], Lookup(live, f))
    ensures var d := DiffOf(target, prev, names, live);
            && f in d.changedBefore.m
            && d.changedBefore.m[f] == Change(prev[j].m[f], Shown(prev[j].m[f], Lookup(live, f)))
  {
    ScanBeforeComplete(prev, f, Lookup(live, f), false, j);
  }

  /** Pass 3: a field is reported unchanged only when its newest earlier value
      equals the live value, which is then what is reported; a live date is
      never reported unchanged, because its `iso` string and the date itself
      cannot both equal the stored value. */
  lemma UnchangedSpec(target: Dict<Value>, prev: seq<Dict<Value>>, names: seq<string>,
                      live: Dict<Value>, f: string)
    ensures var d := DiffOf(target, prev, names, live);
            f in d.unchangedFields.m ==>
              && f in names && Diffable(prev, f)
              && Newest(prev, f) == Lookup(live, f)
              && d.unchangedFields.m[f] == Lookup(live, f)
              && !Lookup(live, f).DateTime?
    ensures var d := DiffOf(target, prev, names, live);
            f in names && Diffable(prev, f) && f !in d.changed.m && f !in d.changedBefore.m ==>
              f in d.unchangedFields.m
  {
    var d := DiffOf(target, prev, names, live);
    if f in d.unchangedFields.m {
      var j := FirstSet(prev, f).value;
      var lv := Lookup(live, f);
      if Differs(prev[j].m[f], lv) {
        ScanBeforeComplete(prev, f, lv, false, j);
      }
    }
  }
}

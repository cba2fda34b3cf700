/** Finding the touchscreen's pin group:
    first_layer/source/plugins/touchscreen/gpio/gpio-msm-pinctrl.c, lines 96-160. */
module PinGroups {
  import opened Common

  /** PLUGIN_TOUCHSCREEN_INTERRUPT_HARDWARE of the target that uses this file. */
  const PIN: int := 125

  /** A chip of the kernel's table, with the pin groups of the controller it is part of. */
  datatype Chip = Chip(address: nat, chipLabel: string, groups: seq<seq<int>>)

  /** A pointer to one of a controller's groups. */
  datatype GroupPtr = GroupPtr(chip: Chip, index: nat)

  /** strstr(s, t) != NULL */
  predicate Contains(s: string, t: string) {
    exists i :: 0 <= i <= |s| - |t| && OccursAt(s, t, i)
  }

  predicate OccursAt(s: string, t: string, i: nat)
    requires i <= |s| - |t|
  {
    s[i..i + |t|] == t
  }

  predicate IsPinctrl(entry: Option<Chip>) {
    entry.Some? && Contains(entry.value.chipLabel, "pinctrl")
  }

  /** Group g of table entry i lists the pin. */
  predicate Match(table: seq<Option<Chip>>, i: nat, g: nat) {
    i < |table| && IsPinctrl(table[i]) && g < |table[i].value.groups| && PIN in table[i].value.groups[g]
  }

  /** A match is an entry of the table whose label has "pinctrl" in it somewhere, and a group of it with
      pin 125. */
  lemma MatchMeans(table: seq<Option<Chip>>, i: nat, g: nat)
    ensures Match(table, i, g) <==>
            && i < |table| && table[i].Some?
            && (exists front: string, back: string :: table[i].value.chipLabel == front + "pinctrl" + back)
            && g < |table[i].value.groups| && 125 in table[i].value.groups[g]
  {
    if i < |table| && table[i].Some? {
      var name := table[i].value.chipLabel;
      if front: string, back: string :| name == front + "pinctrl" + back {
        assert OccursAt(name, "pinctrl", |front|);
      }
      if at: nat :| at <= |name| - 7 && OccursAt(name, "pinctrl", at) {
        assert name == name[..at] + "pinctrl" + name[at + 7..];
      }
    }
  }

  /** The first match, chips in the order of the table and groups in the order of the chip. */
  ghost predicate FirstMatch(table: seq<Option<Chip>>, i: nat, g: nat) {
    && Match(table, i, g)
    && forall j: nat, k: nat | Match(table, j, k) :: i < j || (i == j && g <= k)
  }

  ghost predicate SomeMatch(table: seq<Option<Chip>>) {
    exists i: nat, g: nat :: Match(table, i, g)
  }

  ghost predicate SomePinctrl(table: seq<Option<Chip>>) {
    exists i :: 0 <= i < |table| && IsPinctrl(table[i])
  }

  /** If anything matches there is exactly one first match. */
  lemma FirstMatchExists(table: seq<Option<Chip>>) returns (i: nat, g: nat)
    requires SomeMatch(table)
    ensures FirstMatch(table, i, g)
    ensures forall j: nat, k: nat | FirstMatch(table, j, k) :: j == i && k == g
  {
    var i0: nat, g0: nat :| Match(table, i0, g0);
    i := FirstChip(table, i0, g0);
    var g1: nat :| Match(table, i, g1);
    g := FirstGroup(table, i, g1);
  }

  lemma {:induction false} FirstChip(table: seq<Option<Chip>>, i: nat, g: nat) returns (first: nat)
    requires Match(table, i, g)
    ensures exists k: nat :: Match(table, first, k)
    ensures forall j: nat, k: nat | Match(table, j, k) :: first <= j
    decreases i
  {
    if j: nat, k: nat :| Match(table, j, k) && j < i {
      first := FirstChip(table, j, k);
    } else {
      first := i;
    }
  }

  lemma {:induction false} FirstGroup(table: seq<Option<Chip>>, i: nat, g: nat) returns (first: nat)
    requires Match(table, i, g)
    ensures Match(table, i, first) && forall k: nat | Match(table, i, k) :: first <= k
    decreases g
  {
    if k: nat :| Match(table, i, k) && k < g {
      first := FirstGroup(table, i, k);
    } else {
      first := g;
    }
  }

  /** The search as a value, for the statement of its outcome: the last controller looked at, the group
      and the chip. It is tied to the method below. */
  datatype Found = Found(pctrl: Option<Chip>, pinGroup: Option<GroupPtr>, pinGroupIndex: nat, gpioChip: Option<Chip>)

  /** The last pinctrl chip of a table: every one searched in vain leaves the static pointer at itself. */
  function LastPinctrl(table: seq<Option<Chip>>, before: Option<Chip>): Option<Chip> {
    if table == [] then before
    else if IsPinctrl(table[|table| - 1]) then table[|table| - 1]
    else LastPinctrl(table[..|table| - 1], before)
  }

  /** What an initialisation that meets all its symbols leaves behind. */
  ghost predicate Outcome(table: seq<Option<Chip>>, before: Found, after: Found, ok: bool) {
    && (forall i: nat, g: nat | FirstMatch(table, i, g) ::
          ok && after == Found(table[i], Some(GroupPtr(table[i].value, g)), g, table[i]))
    && (!SomeMatch(table) ==>
          && after.pctrl == LastPinctrl(table, before.pctrl)
          && after.gpioChip == before.gpioChip && after.pinGroupIndex == before.pinGroupIndex
          && after.pinGroup == (if SomePinctrl(table) then None else before.pinGroup)
          && (ok <==> after.pinGroup.Some?))
  }

  /** Initialisation succeeds exactly when some pinctrl chip has a group that lists the pin, or there is
      no pinctrl chip at all and the static pointer of an earlier initialisation is still set. Loaded
      afresh, the pointer is null, and success is exactly a match. */
  lemma SucceedsIffMatch(table: seq<Option<Chip>>, before: Found, after: Found, ok: bool)
    requires Outcome(table, before, after, ok)
    ensures ok <==> SomeMatch(table) || (!SomePinctrl(table) && before.pinGroup.Some?)
    ensures before.pinGroup.None? ==> (ok <==> SomeMatch(table))
  {
    if SomeMatch(table) {
      var i, g := FirstMatchExists(table);
    }
  }

  lemma {:induction false} LastPinctrlIsLast(table: seq<Option<Chip>>, before: Option<Chip>, i: nat)
    requires i < |table| && IsPinctrl(table[i])
    requires forall k | i < k < |table| :: !IsPinctrl(table[k])
    ensures LastPinctrl(table, before) == table[i]
  {
    if i < |table| - 1 {
      assert table[..|table| - 1][i] == table[i];
      assert forall k | 0 <= k < |table| - 1 :: table[..|table| - 1][k] == table[k];
      LastPinctrlIsLast(table[..|table| - 1], before, i);
    }
  }

  lemma {:induction false} NoPinctrlNoLast(table: seq<Option<Chip>>, before: Option<Chip>)
    requires !SomePinctrl(table)
    ensures LastPinctrl(table, before) == before
  {
    if table != [] {
      assert IsPinctrl(table[|table| - 1]) == false;
      assert forall i | 0 <= i < |table| - 1 :: table[..|table| - 1][i] == table[i];
      NoPinctrlNoLast(table[..|table| - 1], before);
    }
  }

  /** The stale case: after a successful search, one in a table of any length without pinctrl chips leaves
      everything as it was and still counts as success. */
  lemma StalePointerCounts(table: seq<Option<Chip>>, before: Found)
    requires !SomePinctrl(table) && before.pinGroup.Some?
    ensures Outcome(table, before, before, true) && !SomeMatch(table)
  {
    NoPinctrlNoLast(table, before.pctrl);
    forall i: nat, g: nat
      ensures !Match(table, i, g)
    {
      assert i < |table| ==> !IsPinctrl(table[i]);
    }
  }

  // ------------------------------------------------------------------- in place

  class PinSearch {
    var pctrl: Option<Chip>
    var pinGroup: Option<GroupPtr>
    var pinGroupIndex: nat
    var gpioChip: Option<Chip>

    function View(): Found
      reads this
    {
      Found(pctrl, pinGroup, pinGroupIndex, gpioChip)
    }

    constructor ()
      ensures View() == Found(None, None, 0, None)
    {
      pctrl, pinGroup, pinGroupIndex, gpioChip := None, None, 0, None;
    }

    method FindCorrectPingroup(chip: Chip) returns (group: Option<GroupPtr>)
      modifies `pinGroupIndex
      ensures group.None? ==> pinGroupIndex == old(pinGroupIndex) && forall g | 0 <= g < |chip.groups| :: PIN !in chip.groups[g]
      ensures group.Some? ==> group.value == GroupPtr(chip, pinGroupIndex)
                              && pinGroupIndex < |chip.groups| && PIN in chip.groups[pinGroupIndex]
                              && forall g | 0 <= g < pinGroupIndex :: PIN !in chip.groups[g]
    {
      var i := 0;
      while i < |chip.groups|
        invariant 0 <= i <= |chip.groups|
        invariant forall g | 0 <= g < i :: PIN !in chip.groups[g]
        invariant pinGroupIndex == old(pinGroupIndex)
      {
        var j := 0;
        while j < |chip.groups[i]|
          invariant 0 <= j <= |chip.groups[i]|
          invariant PIN !in chip.groups[i][..j]
        {
          if chip.groups[i][j] == PIN {
            pinGroupIndex := i;
            return Some(GroupPtr(chip, i));
          }
          j := j + 1;
        }
        i := i + 1;
      }
      return None;
    }

    /** symbols tells whether the kernel knows msm_gpio_set and gpio_desc; table is the latter. */
    method GpioMsmInterruptInit(symbols: bool, table: seq<Option<Chip>>) returns (ok: bool)
      modifies this
      ensures !symbols ==> !ok && View() == old(View())
      ensures symbols ==> Outcome(table, old(View()), View(), ok)
    {
      if !symbols {
        return false;
      }
      ghost var before := View();
      var i := 0;
      var found := false;
      while i < |table| && !found
        invariant 0 <= i <= |table|
        invariant !found ==> View() == Missed(table, i, before, pctrl) && NoMatchBefore(table, i)
        invariant !found ==> pctrl == LastPinctrl(table[..i], before.pctrl)
        invariant found ==> FirstMatch(table, i, pinGroupIndex)
        invariant found ==> View() == Found(table[i], Some(GroupPtr(table[i].value, pinGroupIndex)), pinGroupIndex, table[i])
        decreases |table| - i, !found
      {
        assert table[..i + 1][..i] == table[..i];
        if table[i].Some? && Contains(table[i].value.chipLabel, "pinctrl") {
          pctrl := table[i];
          pinGroup := FindCorrectPingroup(table[i].value);
          if pinGroup.Some? {
            gpioChip := table[i];
            found := true;
            FirstHere(table, i, pinGroupIndex);
          }
        }
        if !found {
          i := i + 1;
        }
      }
      ok := pinGroup.Some?;
      if found {
        OutcomeFound(table, i, pinGroupIndex, before, View());
      } else {
        assert table[..|table|] == table;
      }
    }
  }

  /** The statics after the first i entries have been searched in vain. */
  ghost function Missed(table: seq<Option<Chip>>, i: nat, before: Found, pctrl: Option<Chip>): Found
    requires i <= |table|
  {
    before.(pctrl := pctrl, pinGroup := if SomePinctrl(table[..i]) then None else before.pinGroup)
  }

  ghost predicate NoMatchBefore(table: seq<Option<Chip>>, i: nat) {
    forall j: nat, k: nat :: Match(table, j, k) ==> i <= j
  }

  lemma FirstHere(table: seq<Option<Chip>>, i: nat, g: nat)
    requires Match(table, i, g) && NoMatchBefore(table, i)
    requires forall k | 0 <= k < g :: PIN !in table[i].value.groups[k]
    ensures FirstMatch(table, i, g)
  {
    forall j: nat, k: nat | Match(table, j, k)
      ensures i < j || (i == j && g <= k)
    {}
  }

  lemma OutcomeFound(table: seq<Option<Chip>>, i: nat, g: nat, before: Found, after: Found)
    requires FirstMatch(table, i, g)
    requires after == Found(table[i], Some(GroupPtr(table[i].value, g)), g, table[i])
    ensures Outcome(table, before, after, true)
  {
    assert SomeMatch(table);
  }
}

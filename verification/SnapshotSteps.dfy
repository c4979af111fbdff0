/** One slot of the device table in src/usbif_host.c as the two tasks share it: the
    host task claims it and writes its fields one at a time, and a snapshot looks at
    in_use and then reads the fields, with no lock between them. */
module SnapshotSteps {

  /** The fields as they are written: address, handle, vendor, product, classes, speed. */
  const FIELDS: nat := 6

  /** The fields a snapshot reads, in its order: speed, vendor, product, classes, address. */
  const READS: seq<nat> := [5, 2, 3, 4, 0]

  /** A snapshot at this slot: what it has read, and which of that it read `early`,
      before the claim under way had written it. `whole`: at its look the slot's
      device was written; `moved`: the slot was claimed again since; `had`: the devices
      it was claimed for since, the one at the look and the one before that. */
  datatype Reader = Away | Reading(vals: seq<nat>, early: seq<bool>, whole: bool, moved: bool, had: set<seq<nat>>)

  /** `dev` is the device the slot was last claimed for, `done` how many of its fields
      are written, and `before` what the fields were at the claim. */
  datatype Slot = Slot(inUse: bool, fields: seq<nat>, dev: seq<nat>, done: nat, before: seq<nat>, reader: Reader)

  datatype Step = Claim(dev: seq<nat>) | Write | Free | Look | Read | Leave

  ghost predicate Enabled(s: Slot, a: Step) {
    match a
    case Claim(dev) => !s.inUse && s.done == FIELDS && |dev| == FIELDS
    case Write => s.done < FIELDS
    case Free => s.inUse && s.done == FIELDS
    case Look => s.reader.Away? && s.inUse
    case Read => s.reader.Reading? && |s.reader.vals| < |READS|
    case Leave => s.reader.Reading? && |s.reader.vals| == |READS|
  }

  ghost function Apply(s: Slot, a: Step): Slot
    requires Inv(s) && Enabled(s, a)
  {
    match a
    case Claim(dev) =>
      s.(inUse := true, dev := dev, done := 0, before := s.fields,
         reader := if s.reader.Reading? then s.reader.(moved := true, had := s.reader.had + {dev}) else Away)
    case Write => s.(fields := s.fields[s.done := s.dev[s.done]], done := s.done + 1)
    case Free => s.(inUse := false)
    case Look => s.(reader := Reading([], [], s.done == FIELDS, false, {s.before, s.dev}))
    case Read =>
      var k := READS[|s.reader.vals|];
      s.(reader := s.reader.(vals := s.reader.vals + [s.fields[k]], early := s.reader.early + [k >= s.done]))
    case Leave => s.(reader := Away)
  }

  ghost predicate Init(s: Slot) {
    !s.inUse && |s.fields| == FIELDS && s.dev == s.before == s.fields && s.done == FIELDS && s.reader == Away
  }

  /** A field is the device's once written, and until then what it was before; and a
      value read is the one or the other by whether it was read early. */
  ghost predicate Inv(s: Slot) {
    && |s.fields| == |s.dev| == |s.before| == FIELDS && s.done <= FIELDS
    && (forall i | 0 <= i < FIELDS :: s.fields[i] == if i < s.done then s.dev[i] else s.before[i])
    && (!s.inUse ==> s.done == FIELDS)
    && (s.reader.Reading? ==>
          && |s.reader.vals| == |s.reader.early| <= |READS| && (!s.reader.moved ==> ReadSo(s, s.reader))
          && s.dev in s.reader.had && s.before in s.reader.had && ReadFrom(s.reader.had, s.reader.vals))
  }

  /** Each value read is that field of one of these devices. */
  ghost predicate ReadFrom(had: set<seq<nat>>, vals: seq<nat>)
    requires |vals| <= |READS|
  {
    forall j | 0 <= j < |vals| :: exists d :: d in had && |d| == FIELDS && d[READS[j]] == vals[j]
  }

  ghost predicate ReadSo(s: Slot, r: Reader)
    requires r.Reading? && |r.vals| == |r.early| <= |READS| && |s.dev| == |s.before| == FIELDS
  {
    && (r.whole ==> s.done == FIELDS)
    && forall j | 0 <= j < |r.vals| ::
         && r.vals[j] == (if r.early[j] then s.before[READS[j]] else s.dev[READS[j]])
         && (r.whole ==> !r.early[j])
  }

  lemma StepInv(s: Slot, a: Step)
    requires Inv(s) && Enabled(s, a)
    ensures Inv(Apply(s, a))
  {
    if a.Claim? {
      assert s.fields == s.dev;
    }
    if s.reader.Reading? {
      var r' := Apply(s, a).reader;
      assert r'.Reading? ==> s.reader.had <= r'.had;
      if a.Read? {
        var k := READS[|s.reader.vals|];
        assert s.fields[k] == (if k < s.done then s.dev else s.before)[k];
      }
    }
  }

  // ---- whole runs

  ghost predicate Runs(s: Slot, acts: seq<Step>)
    requires Inv(s)
    decreases |acts|
  {
    acts == [] || (Enabled(s, acts[0]) && (StepInv(s, acts[0]); Runs(Apply(s, acts[0]), acts[1..])))
  }

  ghost function End(s: Slot, acts: seq<Step>): (e: Slot)
    requires Inv(s) && Runs(s, acts)
    ensures Inv(e)
    decreases |acts|
  {
    if acts == [] then s else (StepInv(s, acts[0]); End(Apply(s, acts[0]), acts[1..]))
  }

  ghost predicate Reachable(e: Slot) {
    exists s, acts :: Init(s) && Runs(s, acts) && End(s, acts) == e
  }

  lemma ReachableInv(e: Slot)
    requires Reachable(e)
    ensures Inv(e)
  {
  }

  lemma {:induction false} RunsOn(s: Slot, acts: seq<Step>, a: Step)
    requires Inv(s) && Runs(s, acts) && Enabled(End(s, acts), a)
    ensures Runs(s, acts + [a]) && End(s, acts + [a]) == Apply(End(s, acts), a)
    decreases |acts|
  {
    hide Enabled, Inv, Apply;
    if acts == [] {
      StepInv(s, a);
      assert ([a])[1..] == [] && acts + [a] == [a];
    } else {
      StepInv(s, acts[0]);
      RunsOn(Apply(s, acts[0]), acts[1..], a);
      assert (acts + [a])[1..] == acts[1..] + [a];
    }
  }

  lemma Next(e: Slot, a: Step) returns (e': Slot)
    requires Reachable(e) && Inv(e) && Enabled(e, a)
    ensures e' == Apply(e, a) && Reachable(e') && Inv(e')
  {
    var s, acts :| Init(s) && Runs(s, acts) && End(s, acts) == e;
    RunsOn(s, acts, a);
    StepInv(e, a);
    e' := Apply(e, a);
    assert Runs(s, acts + [a]);
  }

  // ---- rows

  /** The row of a device, as the snapshot lays it out. */
  function RowOf(dev: seq<nat>): (r: seq<nat>)
    requires |dev| == FIELDS
    ensures |r| == |READS| && forall j | 0 <= j < |READS| :: r[j] == dev[READS[j]]
  {
    [dev[5], dev[2], dev[3], dev[4], dev[0]]
  }

  /** A row read to its end from a slot not claimed again meanwhile. */
  ghost predicate RowRead(e: Slot) {
    Reachable(e) && e.reader.Reading? && |e.reader.vals| == |READS| && !e.reader.moved
  }

  /** After any run: a row read is its device's exactly if every field read early was
      the same in the device before. */
  lemma RowExactIff(e: Slot)
    requires RowRead(e)
    ensures |e.reader.early| == |READS| && |e.before| == |e.dev| == FIELDS
    ensures e.reader.vals == RowOf(e.dev)
            <==> forall j | 0 <= j < |READS| && e.reader.early[j] :: e.before[READS[j]] == e.dev[READS[j]]
  {
    ReachableInv(e);
    RowIs(e);
  }

  lemma RowIs(e: Slot)
    requires Inv(e) && e.reader.Reading? && |e.reader.vals| == |READS| && !e.reader.moved
    ensures e.reader.vals == RowOf(e.dev)
            <==> forall j | 0 <= j < |READS| && e.reader.early[j] :: e.before[READS[j]] == e.dev[READS[j]]
  {
    assert ReadSo(e, e.reader);
    var v, row := e.reader.vals, RowOf(e.dev);
    if v == row {
      assert forall j | 0 <= j < |READS| :: v[j] == row[j];
    }
  }

  /** So it is right whenever the device was written at the look, also if it goes
      meanwhile. */
  lemma WholeRowIsRight(e: Slot)
    requires RowRead(e) && e.reader.whole
    ensures |e.dev| == FIELDS && e.reader.vals == RowOf(e.dev)
  {
    RowExactIff(e);
    ReachableInv(e);
    assert ReadSo(e, e.reader);
  }

  /** Claimed again in the middle of a read or not, each field of a row is that of one
      of the devices the slot has had since the look, or of the one before. */
  lemma RowOfSeveral(e: Slot)
    requires Reachable(e) && e.reader.Reading? && |e.reader.vals| <= |READS|
    ensures ReadFrom(e.reader.had, e.reader.vals)
  {
    ReachableInv(e);
  }

  // ---- by the schedule alone

  /** A slot claimed for `second` with nothing of it written, after `first`. */
  ghost function Claimed(first: seq<nat>, second: seq<nat>): (s: Slot)
    requires |first| == |second| == FIELDS
    ensures Inv(s)
  {
    Slot(true, first, second, 0, first, Away)
  }

  /** Two slots at the same point of a schedule, whatever their devices. */
  ghost predicate Alike(x: Slot, y: Slot) {
    && x.inUse == y.inUse && x.done == y.done
    && match x.reader
       case Away => y.reader.Away?
       case Reading(vals, early, whole, moved, _) =>
         y.reader.Reading? && |y.reader.vals| == |vals| && y.reader.early == early && y.reader.whole == whole
         && y.reader.moved == moved
  }

  ghost predicate NoClaim(acts: seq<Step>) {
    forall a | a in acts :: !a.Claim?
  }

  lemma {:induction false} RunsAlike(x: Slot, y: Slot, acts: seq<Step>)
    requires Inv(x) && Inv(y) && Alike(x, y) && NoClaim(acts) && Runs(x, acts)
    ensures Runs(y, acts) && Alike(End(x, acts), End(y, acts))
    ensures End(x, acts).dev == x.dev && End(y, acts).dev == y.dev
    ensures End(x, acts).before == x.before && End(y, acts).before == y.before
    decreases |acts|
  {
    if acts != [] {
      var a := acts[0];
      assert a in acts && NoClaim(acts[1..]);
      StepInv(x, a);
      StepInv(y, a);
      StepAlike(x, y, a);
      hide Inv, Alike, Enabled, Apply;
      RunsAlike(Apply(x, a), Apply(y, a), acts[1..]);
    }
  }

  lemma StepAlike(x: Slot, y: Slot, a: Step)
    requires Inv(x) && Inv(y) && Alike(x, y) && !a.Claim? && Enabled(x, a)
    ensures Enabled(y, a) && Alike(Apply(x, a), Apply(y, a))
    ensures Apply(x, a).dev == x.dev && Apply(y, a).dev == y.dev
    ensures Apply(x, a).before == x.before && Apply(y, a).before == y.before
  {
  }

  /** A schedule of writes and reads after a claim gives the right row for every two
      devices, one after the other, exactly if it reads no field early. */
  lemma RightForAllIff(acts: seq<Step>, f: seq<nat>, g: seq<nat>)
    requires |f| == |g| == FIELDS && NoClaim(acts) && Runs(Claimed(f, g), acts)
    requires var r := End(Claimed(f, g), acts).reader; r.Reading? && |r.vals| == |READS|
    ensures (forall first, second | |first| == |second| == FIELDS :: RightRow(first, second, acts))
            <==> forall j | 0 <= j < |READS| :: !End(Claimed(f, g), acts).reader.early[j]
  {
    var early := End(Claimed(f, g), acts).reader.early;
    forall first, second | |first| == |second| == FIELDS
      ensures RightRow(first, second, acts)
              <==> forall j | 0 <= j < |READS| && early[j] :: first[READS[j]] == second[READS[j]]
    {
      RightRowIs(acts, f, g, first, second);
    }
    hide RightRow, Runs, End, Claimed;
    var zeros, ones := [0, 0, 0, 0, 0, 0], [1, 1, 1, 1, 1, 1];
    if forall first, second | |first| == |second| == FIELDS :: RightRow(first, second, acts) {
      assert RightRow(zeros, ones, acts);
      assert forall j | 0 <= j < |READS| :: zeros[READS[j]] != ones[READS[j]];
    }
  }

  /** The schedule reads the second device's row. */
  ghost predicate RightRow(first: seq<nat>, second: seq<nat>, acts: seq<Step>)
    requires |first| == |second| == FIELDS
  {
    Runs(Claimed(first, second), acts) && End(Claimed(first, second), acts).reader.Reading?
    && End(Claimed(first, second), acts).reader.vals == RowOf(second)
  }

  lemma RightRowIs(acts: seq<Step>, f: seq<nat>, g: seq<nat>, first: seq<nat>, second: seq<nat>)
    requires |f| == |g| == |first| == |second| == FIELDS && NoClaim(acts) && Runs(Claimed(f, g), acts)
    requires var r := End(Claimed(f, g), acts).reader; r.Reading? && |r.vals| == |READS|
    ensures |End(Claimed(f, g), acts).reader.early| == |READS|
    ensures RightRow(first, second, acts)
            <==> forall j | 0 <= j < |READS| && End(Claimed(f, g), acts).reader.early[j] ::
                   first[READS[j]] == second[READS[j]]
  {
    RunsAlike(Claimed(f, g), Claimed(first, second), acts);
    NotMoved(Claimed(f, g), acts);
    hide Runs;
    RowIs(End(Claimed(first, second), acts));
  }

  /** With no claim in it a schedule moves no reader on. */
  lemma {:induction false} NotMoved(s: Slot, acts: seq<Step>)
    requires Inv(s) && NoClaim(acts) && Runs(s, acts) && (s.reader.Reading? ==> !s.reader.moved)
    ensures End(s, acts).reader.Reading? ==> !End(s, acts).reader.moved
    decreases |acts|
  {
    if acts != [] {
      assert acts[0] in acts && NoClaim(acts[1..]);
      StepInv(s, acts[0]);
      hide Inv;
      NotMoved(Apply(s, acts[0]), acts[1..]);
    }
  }

  // ---- a row of a device that is gone

  /** The rest of a device's fields written. */
  lemma {:induction false} WriteRest(e0: Slot) returns (e: Slot)
    requires Reachable(e0) && Inv(e0)
    ensures Reachable(e) && Inv(e) && e == e0.(fields := e0.dev, done := FIELDS)
    decreases FIELDS - e0.done
  {
    if e0.done == FIELDS {
      e := e0;
      assert e0.fields == e0.dev;
    } else {
      e := Next(e0, Write);
      e := WriteRest(e);
    }
  }

  /** The rest of a row read, nobody else taking a step. */
  lemma {:induction false} ReadRest(e0: Slot) returns (e: Slot)
    requires Reachable(e0) && Inv(e0) && e0.reader.Reading? && !e0.reader.moved
    requires forall j | 0 <= j < |e0.reader.vals| :: e0.reader.vals[j] == e0.fields[READS[j]]
    ensures Reachable(e) && Inv(e) && e.reader.Reading? && e == e0.(reader := e.reader) && !e.reader.moved
    ensures e.reader.vals == RowOf(e0.fields) && e.reader.whole == e0.reader.whole
    decreases |READS| - |e0.reader.vals|
  {
    if |e0.reader.vals| == |READS| {
      e := e0;
    } else {
      e := Next(e0, Read);
      e := ReadRest(e);
    }
  }

  /** A caller that held the host lock, under which the host task makes and ends its
      claims, would find them written and none made meanwhile: its rows are right. */
  lemma LockedRow(e0: Slot) returns (e: Slot)
    requires Reachable(e0) && e0.inUse && e0.done == FIELDS && e0.reader.Away?
    ensures RowRead(e) && e == e0.(reader := e.reader) && |e.dev| == FIELDS && e.reader.vals == RowOf(e.dev)
  {
    ReachableInv(e0);
    e := Next(e0, Look);
    e := ReadRest(e);
    WholeRowIsRight(e);
  }

  /** Of any two devices, one after the other in the slot: a run in which a snapshot,
      made while the host task takes no step at all, reads the whole row of the first,
      which has gone, from a slot in use by the second. */
  lemma DepartedRow(s: Slot, first: seq<nat>, second: seq<nat>) returns (e: Slot)
    requires Init(s) && |first| == |second| == FIELDS
    ensures RowRead(e) && e.inUse && e.dev == second && e.reader.vals == RowOf(first)
  {
    assert Runs(s, []) && End(s, []) == s;
    e := Next(s, Claim(first));
    e := WriteRest(e);
    e := Next(e, Free);
    e := Next(e, Claim(second));
    e := Next(e, Look);
    e := ReadRest(e);
  }
}

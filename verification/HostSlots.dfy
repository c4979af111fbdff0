/** The device table of src/usbif_host.c and the events it feeds to poll(): what a
    listener that replays them knows is what the table holds. */
module HostSlots {
  import opened EventRing

  const MAX_DEVS: nat := 8

  /** A device as it enumerated; `handle` is the library's name for it. */
  datatype Device = Device(addr: nat, handle: nat, speed: nat, vid: nat, pid: nat, classes: nat)

  datatype Slot = Empty | Used(dev: Device)

  function Row(kind: Kind, d: Device): Event {
    EventRing.Event(kind, d.speed, d.vid, d.pid, d.classes, d.addr)
  }

  function RowOf(s: Slot): multiset<Event> {
    match s case Empty => multiset{} case Used(d) => multiset{Row(Attach, d)}
  }

  /** The rows of the slots in use. */
  ghost function Rows(slots: seq<Slot>): multiset<Event> {
    if slots == [] then multiset{}
    else Rows(slots[..|slots| - 1]) + RowOf(slots[|slots| - 1])
  }

  /** What a listener has who adds a device at each ATTACH and drops it at each DETACH. */
  ghost function Replay(events: seq<Event>): multiset<Event> {
    if events == [] then multiset{}
    else
      var e, known := events[|events| - 1], Replay(events[..|events| - 1]);
      if e.kind.Attach? then known + multiset{e} else known - multiset{e.(kind := Attach)}
  }

  lemma ReplaySnoc(events: seq<Event>, e: Event)
    ensures Replay(events + [e]) ==
            if e.kind.Attach? then Replay(events) + multiset{e} else Replay(events) - multiset{e.(kind := Attach)}
  {
    assert (events + [e])[..|events|] == events;
  }

  /** A slot changed trades its row for the new one. */
  lemma {:induction false} RowsUpdate(slots: seq<Slot>, i: nat, s: Slot)
    requires i < |slots|
    ensures RowOf(slots[i]) <= Rows(slots)
    ensures Rows(slots[i := s]) == Rows(slots) - RowOf(slots[i]) + RowOf(s)
  {
    var last := |slots| - 1;
    hide RowOf;
    if i < last {
      RowsUpdate(slots[..last], i, s);
      assert slots[i := s][..last] == slots[..last][i := s];
    } else {
      assert slots[i := s][..last] == slots[..last];
    }
  }

  lemma AttachIs(raised: seq<Event>, known: multiset<Event>, d: Device)
    ensures Replay(raised + [Row(Attach, d)]) == Replay(raised) + multiset{Row(Attach, d)}
    ensures known - RowOf(Empty) + RowOf(Used(d)) == known + multiset{Row(Attach, d)}
    ensures |known + multiset{Row(Attach, d)}| == |known| + 1
  {
    ReplaySnoc(raised, Row(Attach, d));
    hide Replay;
  }

  lemma DetachIs(raised: seq<Event>, known: multiset<Event>, d: Device)
    requires RowOf(Used(d)) <= known
    ensures Replay(raised + [Row(Detach, d)]) == Replay(raised) - multiset{Row(Attach, d)}
    ensures known - RowOf(Used(d)) + RowOf(Empty) == known - multiset{Row(Attach, d)}
    ensures |known - multiset{Row(Attach, d)}| == |known| - 1
  {
    ReplaySnoc(raised, Row(Detach, d));
    hide Replay;
    assert Row(Detach, d).(kind := Attach) == Row(Attach, d);
    var one := multiset{Row(Attach, d)};
    assert known == (known - one) + one;
  }

  /** The slots in use, counted. */
  lemma {:induction false} RowsCount(slots: seq<Slot>)
    ensures |Rows(slots)| == InUse(slots)
  {
    if slots != [] {
      RowsCount(slots[..|slots| - 1]);
    }
  }

  function InUse(slots: seq<Slot>): nat {
    if slots == [] then 0 else InUse(slots[..|slots| - 1]) + if slots[|slots| - 1].Used? then 1 else 0
  }

  class Host {
    const devs: array<Slot>
    const events: EventQueue
    const filter: bv16
    var tearingDown: bool
    var attaches: nat
    var detaches: nat
    var errors: nat
    /** Every event raised, those drained, how many the ring refused, and the rows of
        the slots in use. */
    ghost var raised: seq<Event>
    ghost var drained: seq<Event>
    ghost var lost: nat
    ghost var known: multiset<Event>

    ghost predicate Books()
      reads `raised, `drained, `lost, `known, `attaches, `detaches, events`contents
    {
      && Replay(raised) == known && attaches - detaches == |known|
      && (lost == 0 ==> raised == drained + events.contents)
    }

    ghost predicate Table()
      reads `known, devs
    {
      devs.Length == MAX_DEVS && Rows(devs[..]) == known
    }

    ghost predicate Valid()
      reads this, devs, events, events.slots
    {
      events.Valid() && Books() && Table()
    }

    constructor (ring: EventQueue, classes: bv16)
      requires ring.Valid() && ring.contents == []
      ensures Valid() && events == ring && filter == classes && fresh(devs) && devs.Length == 8
      ensures raised == [] && drained == [] && lost == 0 && attaches == 0 && detaches == 0
    {
      devs := new Slot[MAX_DEVS](i => Empty);
      events, filter, tearingDown, attaches, detaches, errors := ring, classes, false, 0, 0, 0;
      raised, drained, lost, known := [], [], 0, multiset{};
      new;
      RowsOfEmpty(devs[..]);
    }

    /** The ring takes another event. */
    ghost predicate HasRoom()
      reads events`contents
    {
      |events.contents| < events.slots.Length - 1
    }

    method Emit(e: Event)
      requires events.Valid()
      modifies events`head, events`dropped, events`contents, events.slots, `raised, `lost
      ensures events.Valid() && raised == old(raised) + [e] && lost >= old(lost)
      ensures events.contents == old(events.contents) + if old(HasRoom()) then [e] else []
      ensures old(raised == drained + events.contents) && lost == 0 ==> raised == drained + events.contents
    {
      hide EventQueue.Valid;
      var ok := events.Push(e);
      raised := raised + [e];
      lost := lost + if ok then 0 else 1;
    }

    /** A slot changed, in the table alone. */
    method Put(i: nat, s: Slot)
      requires Table() && i < MAX_DEVS
      modifies devs, `known
      ensures Table() && known == old(known) - RowOf(old(devs[i])) + RowOf(s) && RowOf(old(devs[i])) <= old(known)
      ensures devs[..] == old(devs[..])[i := s]
    {
      RowsUpdate(devs[..], i, s);
      hide Rows, RowOf;
      known := known - RowOf(devs[i]) + RowOf(s);
      ghost var was := devs[..];
      devs[i] := s;
      assert devs[..] == was[i := s];
    }

    lemma TableHas(i: nat)
      requires Table() && i < MAX_DEVS
      ensures RowOf(devs[i]) <= known
    {
      RowsUpdate(devs[..], i, Empty);
      hide Rows, RowOf;
    }

    /** The first free slot; MAX_DEVS if there is none. */
    method FreeSlot() returns (i: nat)
      requires devs.Length == MAX_DEVS
      ensures i <= MAX_DEVS && (forall j | 0 <= j < i :: devs[j].Used?) && (i < MAX_DEVS ==> devs[i].Empty?)
    {
      i := 0;
      while i < MAX_DEVS && devs[i].Used?
        invariant 0 <= i <= MAX_DEVS && forall j | 0 <= j < i :: devs[j].Used?
      {
        i := i + 1;
      }
    }

    /** The slot taken and the ATTACH raised. */
    method Claim(i: nat, d: Device)
      requires Valid() && i < MAX_DEVS && devs[i].Empty?
      modifies devs, events`head, events`dropped, events`contents, events.slots, `raised, `lost, `known, `attaches
      ensures Valid() && known == old(known) + multiset{Row(Attach, d)} && devs[..] == old(devs[..])[i := Used(d)]
      ensures raised == old(raised) + [Row(Attach, d)] && attaches == old(attaches) + 1
      ensures events.contents == old(events.contents) + if old(HasRoom()) then [Row(Attach, d)] else []
    {
      AttachIs(raised, known, d);
      hide Rows, Replay, EventQueue.Valid, Table, Row, RowOf;
      Put(i, Used(d));
      Emit(Row(Attach, d));
      attaches := attaches + 1;
    }

    /** A new device, `usable` if the library opened it and gave its descriptors. It
        takes the first free slot if the filter wants it; otherwise nothing changes
        but the count of errors. */
    method OnNewDev(d: Device, usable: bool, classes: bv16) returns (slot: nat)
      requires Valid()
      modifies this, devs, events`head, events`dropped, events`contents, events.slots
      ensures Valid() && drained == old(drained) && slot <= MAX_DEVS
      ensures slot < MAX_DEVS
              <==> !tearingDown && usable && classes & filter != 0
                   && exists i :: 0 <= i < MAX_DEVS && old(devs[i]).Empty?
      ensures slot < MAX_DEVS ==> (forall j | 0 <= j < slot :: old(devs[j]).Used?)
                                  && devs[..] == old(devs[..])[slot := Used(d)]
                                  && known == old(known) + multiset{Row(Attach, d)}
      ensures slot == MAX_DEVS ==> devs[..] == old(devs[..]) && known == old(known) && raised == old(raised)
                                   && events.contents == old(events.contents)
      ensures var e := EventRing.Event(kind := Attach, speed := d.speed, vid := d.vid, pid := d.pid,
                                       classes := d.classes, devId := d.addr);
              slot < MAX_DEVS ==> raised == old(raised) + [e] && attaches == old(attaches) + 1
                                  && events.contents == old(events.contents) + if old(HasRoom()) then [e] else []
      ensures var full := forall i | 0 <= i < MAX_DEVS :: old(devs[i]).Used?;
              errors == old(errors) + if !tearingDown && (!usable || full) then 1 else 0
      ensures tearingDown == old(tearingDown)
    {
      hide Rows, Replay, EventQueue.Valid;
      slot := MAX_DEVS;
      if tearingDown {
        return;
      }
      var i := FreeSlot();
      if i == MAX_DEVS || !usable {
        errors := errors + 1;
        return;
      }
      if classes & filter == 0 {
        return;
      }
      Claim(i, d);
      slot := i;
    }

    /** The first slot with this handle; MAX_DEVS if there is none. */
    method Find(handle: nat) returns (i: nat)
      requires devs.Length == MAX_DEVS
      ensures i <= MAX_DEVS && (forall j | 0 <= j < i :: !Has(devs[j], handle))
              && (i < MAX_DEVS ==> Has(devs[i], handle))
    {
      i := 0;
      while i < MAX_DEVS && !Has(devs[i], handle)
        invariant 0 <= i <= MAX_DEVS && forall j | 0 <= j < i :: !Has(devs[j], handle)
      {
        i := i + 1;
      }
    }

    /** The DETACH raised and the slot freed. */
    method Release(i: nat)
      requires Valid() && i < MAX_DEVS && devs[i].Used?
      modifies devs, events`head, events`dropped, events`contents, events.slots, `raised, `lost, `known, `detaches
      ensures Valid() && known == old(known) - multiset{Row(Attach, old(devs[i]).dev)}
              && devs[..] == old(devs[..])[i := Empty]
      ensures raised == old(raised) + [Row(Detach, old(devs[i]).dev)] && detaches == old(detaches) + 1
      ensures events.contents
              == old(events.contents) + if old(HasRoom()) then [Row(Detach, old(devs[i]).dev)] else []
    {
      hide Rows, Replay, EventQueue.Valid, Row, RowOf;
      var d := devs[i].dev;
      hide Table;
      TableHas(i);
      Leave(d);
      Put(i, Empty);
    }

    /** The DETACH raised and counted; the table still has the device. */
    method Leave(d: Device)
      requires events.Valid() && Books() && RowOf(Used(d)) <= known
      modifies events`head, events`dropped, events`contents, events.slots, `raised, `lost, `detaches
      ensures events.Valid() && devs[..] == old(devs[..])
      ensures var left := known - RowOf(Used(d)) + RowOf(Empty);
              && left == known - multiset{Row(Attach, d)} && Replay(raised) == left && attaches - detaches == |left|
      ensures lost == 0 ==> raised == drained + events.contents
      ensures raised == old(raised) + [Row(Detach, d)] && detaches == old(detaches) + 1
      ensures events.contents == old(events.contents) + if old(HasRoom()) then [Row(Detach, d)] else []
    {
      hide Replay, RowOf, Row, EventQueue.Valid;
      DetachIs(raised, known, d);
      assert raised == drained + events.contents || lost > 0;
      hide *;
      Emit(Row(Detach, d));
      detaches := detaches + 1;
    }

    /** A device gone: the first slot with its handle is freed; a handle no slot has is
        an error and changes nothing else. */
    method OnDevGone(handle: nat) returns (slot: nat)
      requires Valid()
      modifies this, devs, events`head, events`dropped, events`contents, events.slots
      ensures Valid() && drained == old(drained) && slot <= MAX_DEVS
      ensures forall j | 0 <= j < slot :: !Has(old(devs[j]), handle)
      ensures slot < MAX_DEVS ==> Has(old(devs[slot]), handle) && devs[..] == old(devs[..])[slot := Empty]
                                  && known == old(known) - multiset{Row(Attach, old(devs[slot]).dev)}
                                  && errors == old(errors)
      ensures slot == MAX_DEVS ==> devs[..] == old(devs[..]) && known == old(known) && errors == old(errors) + 1
                                   && raised == old(raised) && events.contents == old(events.contents)
      ensures slot < MAX_DEVS ==>
                var d := old(devs[slot]).dev;
                var e := EventRing.Event(kind := Detach, speed := d.speed, vid := d.vid, pid := d.pid,
                                         classes := d.classes, devId := d.addr);
                && raised == old(raised) + [e] && detaches == old(detaches) + 1
                && events.contents == old(events.contents) + if old(HasRoom()) then [e] else []
    {
      hide Rows, Replay, EventQueue.Valid;
      slot := Find(handle);
      if slot == MAX_DEVS {
        errors := errors + 1;
        return;
      }
      Release(slot);
    }

    /** The loop of drain. */
    method PopUpTo(limit: nat) returns (out: seq<Event>)
      requires events.Valid()
      modifies events`tail, events`contents
      ensures events.Valid() && out + events.contents == old(events.contents)
      ensures |out| == limit || (|out| < limit && events.contents == [])
    {
      hide EventQueue.Valid;
      out := [];
      var more := true;
      while |out| < limit && more
        invariant events.Valid() && |out| <= limit && out + events.contents == old(events.contents)
        invariant !more ==> events.contents == []
        decreases limit - |out| + if more then 1 else 0
      {
        var e;
        ghost var had := events.contents;
        more, e := events.Pop();
        if more {
          assert out + had == (out + [e]) + had[1..];
          out := out + [e];
        }
      }
    }

    /** drain: up to `limit` events, oldest first, and whether any was lost since the
        last call. */
    method Drain(limit: nat) returns (out: seq<Event>, dropped: bool)
      requires Valid()
      modifies events`tail, events`contents, events`dropped, `drained
      ensures Valid() && drained == old(drained) + out && out + events.contents == old(events.contents)
      ensures |out| == limit || (|out| < limit && events.contents == [])
      ensures dropped == (old(events.dropped) != 0) && events.dropped == 0
    {
      hide Rows, Replay, EventQueue.Valid;
      out := PopUpTo(limit);
      var n := events.TakeDropped();
      assert (drained + out) + events.contents == drained + (out + events.contents);
      drained := drained + out;
      dropped := n != 0;
    }

    /** A device found and the events drained: once the events waiting are out, its
        record comes, unless the ring had no room for it. */
    method FoundThenDrained(d: Device, usable: bool, classes: bv16, limit: nat)
      returns (slot: nat, out: seq<Event>, dropped: bool)
      requires Valid()
      modifies this, devs, events`head, events`tail, events`dropped, events`contents, events.slots
      ensures Valid() && slot <= MAX_DEVS && |out| <= limit
      ensures slot < MAX_DEVS && old(HasRoom()) && limit > |old(events.contents)| ==>
                && out == old(events.contents)
                          + [EventRing.Event(kind := Attach, speed := d.speed, vid := d.vid, pid := d.pid,
                                             classes := d.classes, devId := d.addr)]
                && events.contents == []
    {
      hide Rows, Replay, EventQueue.Valid, Row, Books, Table;
      slot := OnNewDev(d, usable, classes);
      out, dropped := Drain(limit);
    }

    /** The first `max` of the attached devices, in slot order and each with its own
        fields. If all fit and no event was lost, they are exactly what a listener knows
        from the events drained and those still queued. */
    method Snapshot(max: nat) returns (out: seq<Event>)
      requires Valid()
      ensures InUse(devs[..]) == attaches - detaches
      ensures |out| == if InUse(devs[..]) <= max then InUse(devs[..]) else max
      ensures forall i | 0 <= i < MAX_DEVS && devs[i].Used? && InUse(devs[..i]) < max ::
                && InUse(devs[..i]) < |out|
                && out[InUse(devs[..i])]
                   == EventRing.Event(kind := Attach, speed := devs[i].dev.speed, vid := devs[i].dev.vid,
                                      pid := devs[i].dev.pid, classes := devs[i].dev.classes,
                                      devId := devs[i].dev.addr)
      ensures InUse(devs[..]) <= max ==>
                multiset(out) == known && (lost == 0 ==> multiset(out) == Replay(drained + events.contents))
    {
      hide Replay, Rows;
      out := [];
      var i := 0;
      while i < MAX_DEVS && |out| < max
        invariant 0 <= i <= MAX_DEVS && out == RowList(devs[..i]) && |out| <= max
      {
        hide EventQueue.Valid, Row, Books, Table;
        assert devs[..i + 1][..i] == devs[..i];
        if devs[i].Used? {
          out := out + [Row(Attach, devs[i].dev)];
        }
        i := i + 1;
      }
      ghost var all := devs[..];
      assert all[..i] == devs[..i];
      SnapshotIs(all, i, out, max);
      RowsCount(all);
      forall j | 0 <= j < MAX_DEVS ensures all[..j] == devs[..j] && all[j] == devs[j] {
      }
      hide Replay, Rows, EventQueue.Valid, RowList, InUse;
    }
  }

  /** A snapshot that stopped at slot n, with every slot seen or no more room. */
  lemma SnapshotIs(slots: seq<Slot>, n: nat, out: seq<Event>, max: nat)
    requires n <= |slots| && out == RowList(slots[..n]) && |out| <= max && (n == |slots| || |out| == max)
    ensures |out| == if InUse(slots) <= max then InUse(slots) else max
    ensures forall i | 0 <= i < |slots| && slots[i].Used? && InUse(slots[..i]) < max ::
              InUse(slots[..i]) < |out| && out[InUse(slots[..i])] == Row(Attach, slots[i].dev)
    ensures InUse(slots) <= max ==> multiset(out) == Rows(slots)
  {
    hide Row, Rows, RowList, InUse;
    var all := RowList(slots);
    ListBegins(slots, n);
    assert n == |slots| ==> slots[..n] == slots;
    assert |out| == |all| ==> out == all;
    RowListIs(slots);
    forall i | 0 <= i < |slots| && slots[i].Used? && InUse(slots[..i]) < max
      ensures InUse(slots[..i]) < |out| && out[InUse(slots[..i])] == Row(Attach, slots[i].dev)
    {
      ListAt(slots, i);
    }
  }

  /** The rows of the first slots come first. */
  lemma {:induction false} ListBegins(slots: seq<Slot>, n: nat)
    requires n <= |slots|
    ensures RowList(slots[..n]) <= RowList(slots) && |RowList(slots)| == InUse(slots)
    ensures |RowList(slots[..n])| == InUse(slots[..n])
    decreases |slots|
  {
    hide Row;
    if n == |slots| {
      assert slots[..n] == slots;
    }
    if slots != [] {
      var last := |slots| - 1;
      if n <= last {
        ListBegins(slots[..last], n);
        assert slots[..last][..n] == slots[..n];
      } else {
        ListBegins(slots[..last], last);
        assert slots[..last][..last] == slots[..last];
      }
    }
  }

  /** A slot in use has its row behind those of the slots in use before it. */
  lemma {:induction false} ListAt(slots: seq<Slot>, i: nat)
    requires i < |slots| && slots[i].Used?
    ensures InUse(slots[..i]) < |RowList(slots)|
    ensures RowList(slots)[InUse(slots[..i])] == Row(Attach, slots[i].dev)
  {
    hide Row;
    assert slots[..i + 1][..i] == slots[..i];
    ListBegins(slots, i);
    ListBegins(slots, i + 1);
  }

  /** The rows in slot order. */
  ghost function RowList(slots: seq<Slot>): seq<Event> {
    if slots == [] then []
    else
      var s := slots[|slots| - 1];
      RowList(slots[..|slots| - 1]) + if s.Used? then [Row(Attach, s.dev)] else []
  }

  lemma {:induction false} RowListIs(slots: seq<Slot>)
    ensures multiset(RowList(slots)) == Rows(slots) && |RowList(slots)| == |Rows(slots)|
  {
    if slots != [] {
      RowListIs(slots[..|slots| - 1]);
    }
  }

  predicate Has(s: Slot, handle: nat) {
    s.Used? && s.dev.handle == handle
  }

  lemma {:induction false} RowsOfEmpty(slots: seq<Slot>)
    requires forall i | 0 <= i < |slots| :: slots[i].Empty?
    ensures Rows(slots) == multiset{}
  {
    if slots != [] {
      RowsOfEmpty(slots[..|slots| - 1]);
    }
  }
}

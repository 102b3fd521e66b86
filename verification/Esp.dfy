/** The ESP security-association database and its replay check. */
module Esp {
  import opened Option
  import opened Words
  import opened OnesComplement

  const MAX_SA := 10

  datatype Sa = Sa(spi: uint32, description: string, encryptionAlgo: byte, authAlgo: byte,
                   seqNumber: uint32, replayWindow: uint32)

  /** The slots in use, oldest first. */
  type Database = seq<Sa>

  function NewSa(spi: uint32, desc: string, encAlgo: byte, authAlgo: byte): Sa {
    Sa(spi, if |desc| <= 63 then desc else desc[..63], encAlgo, authAlgo, 0, 64)
  }

  function Added(db: Database, sa: Sa): Database {
    if |db| >= MAX_SA then db else db + [sa]
  }

  /** The first slot with this SPI. */
  function Lookup(db: Database, spi: uint32): (slot: Option<nat>)
    ensures slot.Some? ==> slot.value < |db| && db[slot.value].spi == spi
                           && forall i :: 0 <= i < slot.value ==> db[i].spi != spi
    ensures slot.None? ==> forall i :: 0 <= i < |db| ==> db[i].spi != spi
  {
    LookupFrom(db, spi, 0)
  }

  function LookupFrom(db: Database, spi: uint32, from: nat): (slot: Option<nat>)
    requires from <= |db|
    ensures slot.Some? ==> from <= slot.value < |db| && db[slot.value].spi == spi
                           && forall i :: from <= i < slot.value ==> db[i].spi != spi
    ensures slot.None? ==> forall i :: from <= i < |db| ==> db[i].spi != spi
    decreases |db| - from
  {
    if from == |db| then None else if db[from].spi == spi then Some(from) else LookupFrom(db, spi, from + 1)
  }

  /** check_replay: only numbers above the last accepted one pass. */
  predicate Fresh(last: uint32, number: uint32) {
    number > last
  }

  function Advanced(sa: Sa, number: uint32): Sa {
    if Fresh(sa.seqNumber, number) then sa.(seqNumber := number) else sa
  }

  /** Whether a packet passes; without an SA it is dropped. */
  predicate Decision(db: Database, spi: uint32, number: uint32) {
    var slot := Lookup(db, spi);
    slot.Some? && Fresh(db[slot.value].seqNumber, number)
  }

  function AfterPacket(db: Database, spi: uint32, number: uint32): (r: Database)
    ensures |r| == |db|
  {
    var slot := Lookup(db, spi);
    if slot.Some? then db[slot.value := Advanced(db[slot.value], number)] else db
  }

  /** ntohl of the four bytes at a position. */
  function Net32(packet: seq<byte>, at: nat): uint32
    requires at + 4 <= |packet|
  {
    0x1_0000 * (Pair(packet[at + 1], packet[at]) as int) + Pair(packet[at + 3], packet[at + 2])
  }

  /** htonl: the four bytes of x with the most significant first. */
  function Bytes(x: uint32): (b: seq<byte>)
    ensures |b| == 4
  {
    [x / 0x100_0000, x / 0x1_0000 % 0x100, x / 0x100 % 0x100, x % 0x100]
  }

  /** What a sender writes in network order is what is read, at any position. */
  lemma HeaderRoundTrip(spi: uint32, number: uint32, payload: seq<byte>)
    ensures var packet := Bytes(spi) + Bytes(number) + payload;
            |packet| >= 8 && Net32(packet, 0) == spi && Net32(packet, 4) == number
  {
    var packet := Bytes(spi) + Bytes(number) + payload;
    assert packet[0] == Bytes(spi)[0] && packet[1] == Bytes(spi)[1] && packet[2] == Bytes(spi)[2] && packet[3] == Bytes(spi)[3];
    assert forall k :: 0 <= k < 4 ==> packet[4 + k] == Bytes(number)[k];
    assert packet[4] == Bytes(number)[0] && packet[5] == Bytes(number)[1];
    assert packet[6] == Bytes(number)[2] && packet[7] == Bytes(number)[3];
    FourBytes(spi);
    FourBytes(number);
  }

  class SaDatabase {
    const slots: array<Sa>
    var saCount: nat

    ghost predicate Valid()
      reads this
    {
      slots.Length == MAX_SA && saCount <= MAX_SA
    }

    ghost function Contents(): Database
      requires Valid()
      reads this, slots
    {
      slots[..saCount]
    }

    constructor ()
      ensures Valid() && fresh(slots) && Contents() == []
    {
      slots := new Sa[MAX_SA](_ => Sa(0, "", 0, 0, 0, 0));
      saCount := 0;
    }

    method AddSa(spi: uint32, desc: string, encAlgo: byte, authAlgo: byte)
      requires Valid()
      modifies this, slots
      ensures Valid() && Contents() == Added(old(Contents()), NewSa(spi, desc, encAlgo, authAlgo))
      ensures old(saCount) < MAX_SA ==>
                && saCount == old(saCount) + 1 && Contents()[..old(saCount)] == old(Contents())
                && slots[saCount - 1].spi == spi && slots[saCount - 1].seqNumber == 0
                && slots[saCount - 1].encryptionAlgo == encAlgo && slots[saCount - 1].authAlgo == authAlgo
    {
      if saCount >= MAX_SA {
        return;
      }
      slots[saCount] := NewSa(spi, desc, encAlgo, authAlgo);
      saCount := saCount + 1;
    }

    method LookupSa(spi: uint32) returns (slot: Option<nat>)
      requires Valid()
      ensures slot == Lookup(Contents(), spi)
    {
      for i := 0 to saCount
        invariant Lookup(Contents(), spi) == LookupFrom(Contents(), spi, i)
      {
        if slots[i].spi == spi {
          return Some(i);
        }
      }
      return None;
    }

    /** Both kinds of old number, inside the replay window and outside, are refused. */
    method CheckReplay(slot: nat, number: uint32) returns (accepted: bool)
      requires Valid() && slot < saCount
      modifies slots
      ensures Valid() && saCount == old(saCount)
      ensures accepted == Fresh(old(slots[slot]).seqNumber, number)
      ensures Contents() == old(Contents())[slot := Advanced(old(slots[slot]), number)]
    {
      if number == 0 {
        return false;
      }
      if number <= slots[slot].seqNumber {
        var diff := slots[slot].seqNumber - number;
        if diff < slots[slot].replayWindow {
          return false;
        }
        return false;
      }
      slots[slot] := slots[slot].(seqNumber := number);
      return true;
    }

    method ParseEspPacket(packet: seq<byte>) returns (accepted: bool)
      requires Valid()
      modifies slots
      ensures Valid() && saCount == old(saCount)
      ensures |packet| < 8 ==> !accepted && Contents() == old(Contents())
      ensures |packet| >= 8 ==>
                && accepted == Decision(old(Contents()), Net32(packet, 0), Net32(packet, 4))
                && Contents() == AfterPacket(old(Contents()), Net32(packet, 0), Net32(packet, 4))
      ensures forall spi, number, payload :: packet == Bytes(spi) + Bytes(number) + payload ==>
                accepted == Decision(old(Contents()), spi, number)
    {
      forall spi, number, payload | packet == Bytes(spi) + Bytes(number) + payload
        ensures |packet| >= 8 && Net32(packet, 0) == spi && Net32(packet, 4) == number
      {
        HeaderRoundTrip(spi, number, payload);
      }
      if |packet| < 8 {
        return false;
      }
      var slot := LookupSa(Net32(packet, 0));
      if slot == None {
        return false;
      }
      accepted := CheckReplay(slot.value, Net32(packet, 4));
    }
  }

  // -------------------------------------------------------------------- runs

  datatype Event =
    | Add(spi: uint32, desc: string, encAlgo: byte, authAlgo: byte)
    | Packet(spi: uint32, number: uint32)

  function Apply(db: Database, e: Event): Database {
    match e
    case Add(spi, desc, encAlgo, authAlgo) => Added(db, NewSa(spi, desc, encAlgo, authAlgo))
    case Packet(spi, number) => AfterPacket(db, spi, number)
  }

  function Run(db: Database, es: seq<Event>): Database
    decreases |es|
  {
    if es == [] then db else Run(Apply(db, es[0]), es[1..])
  }

  function OwnDecision(db: Database, e: Event, spi: uint32): seq<bool> {
    if e.Packet? && e.spi == spi then [Decision(db, spi, e.number)] else []
  }

  function OwnNumber(e: Event, spi: uint32): seq<uint32> {
    if e.Packet? && e.spi == spi then [e.number] else []
  }

  /** The accept/drop decisions on the packets of one SPI, in order. */
  function History(db: Database, es: seq<Event>, spi: uint32): seq<bool>
    decreases |es|
  {
    if es == [] then [] else OwnDecision(db, es[0], spi) + History(Apply(db, es[0]), es[1..], spi)
  }

  /** The sequence numbers of the packets of one SPI, in order. */
  function Numbers(es: seq<Event>, spi: uint32): seq<uint32> {
    if es == [] then [] else OwnNumber(es[0], spi) + Numbers(es[1..], spi)
  }

  lemma {:induction false} LookupUnique(db: Database, spi: uint32, slot: nat)
    requires slot < |db| && db[slot].spi == spi && forall i :: 0 <= i < slot ==> db[i].spi != spi
    ensures Lookup(db, spi) == Some(slot)
  {
  }

  /** A known SPI keeps its slot whatever happens, and the slot changes only
      through packets of that SPI. */
  lemma SlotStep(db: Database, e: Event, spi: uint32, slot: nat)
    requires Lookup(db, spi) == Some(slot)
    ensures Lookup(Apply(db, e), spi) == Some(slot)
    ensures Apply(db, e)[slot] ==
            if e.Packet? && e.spi == spi then Advanced(db[slot], e.number) else db[slot]
  {
    var db' := Apply(db, e);
    if e.Packet? {
      var k := Lookup(db, e.spi);
      assert forall i :: 0 <= i < |db| ==> db'[i].spi == db[i].spi;
    }
    LookupUnique(db', spi, slot);
  }

  lemma {:induction false} SlotIsStable(db: Database, es: seq<Event>, spi: uint32)
    requires Lookup(db, spi).Some?
    ensures Lookup(Run(db, es), spi) == Lookup(db, spi)
    decreases |es|
  {
    if es != [] {
      SlotStep(db, es[0], spi, Lookup(db, spi).value);
      SlotIsStable(Apply(db, es[0]), es[1..], spi);
    }
  }

  // ------------------------------------------- one SPI on its own

  function Highest(start: uint32, numbers: seq<uint32>): uint32 {
    if numbers == [] then start else
    var h := Highest(start, numbers[..|numbers| - 1]);
    if numbers[|numbers| - 1] > h then numbers[|numbers| - 1] else h
  }

  /** What an association of its own decides: a number passes when it is a new maximum. */
  function Solo(start: uint32, numbers: seq<uint32>): (r: seq<bool>)
    ensures |r| == |numbers|
  {
    seq(|numbers|, i requires 0 <= i < |numbers| => Fresh(Highest(start, numbers[..i]), numbers[i]))
  }

  lemma {:induction false} HighestCons(start: uint32, first: uint32, rest: seq<uint32>)
    ensures Highest(start, [first] + rest) == Highest(if first > start then first else start, rest)
  {
    var all := [first] + rest;
    if rest == [] {
      assert all[..0] == [];
      assert Highest(start, all[..0]) == start;
    } else {
      assert all[..|all| - 1] == [first] + rest[..|rest| - 1];
      HighestCons(start, first, rest[..|rest| - 1]);
    }
  }

  lemma SoloCons(start: uint32, first: uint32, rest: seq<uint32>)
    ensures Solo(start, [first] + rest) ==
            [Fresh(start, first)] + Solo(if first > start then first else start, rest)
  {
    var all := [first] + rest;
    var next := if first > start then first else start;
    forall i | 0 < i < |all| ensures Solo(start, all)[i] == Solo(next, rest)[i - 1] {
      assert all[..i] == [first] + rest[..i - 1];
      HighestCons(start, first, rest[..i - 1]);
    }
    assert all[..0] == [];
    assert Solo(start, all)[0] == Fresh(start, first);
  }

  lemma SoloStep(db: Database, e: Event, spi: uint32, slot: nat, rest: seq<uint32>)
    requires Lookup(db, spi) == Some(slot)
    ensures Lookup(Apply(db, e), spi) == Some(slot)
    ensures Solo(db[slot].seqNumber, OwnNumber(e, spi) + rest)
         == OwnDecision(db, e, spi) + Solo(Apply(db, e)[slot].seqNumber, rest)
    ensures Highest(db[slot].seqNumber, OwnNumber(e, spi) + rest) == Highest(Apply(db, e)[slot].seqNumber, rest)
  {
    SlotStep(db, e, spi, slot);
    var start, next := db[slot].seqNumber, Apply(db, e)[slot].seqNumber;
    if e.Packet? && e.spi == spi {
      OwnPacketStep(start, next, e.number, rest);
    } else {
      assert [] + rest == rest && [] + Solo(next, rest) == Solo(next, rest);
    }
  }

  lemma OwnPacketStep(start: uint32, next: uint32, number: uint32, rest: seq<uint32>)
    requires next == if Fresh(start, number) then number else start
    ensures Solo(start, [number] + rest) == [Fresh(start, number)] + Solo(next, rest)
    ensures Highest(start, [number] + rest) == Highest(next, rest)
  {
    SoloCons(start, number, rest);
    HighestCons(start, number, rest);
  }

  /** Isolation: from the moment an SPI is known, its decisions and its stored number
      depend on its own packets alone, whatever is added and whoever else sends. */
  lemma {:induction false} HistoryIsOwn(db: Database, es: seq<Event>, spi: uint32, slot: nat)
    requires Lookup(db, spi) == Some(slot)
    ensures History(db, es, spi) == Solo(db[slot].seqNumber, Numbers(es, spi))
    ensures Lookup(Run(db, es), spi) == Some(slot)
    ensures Run(db, es)[slot].seqNumber == Highest(db[slot].seqNumber, Numbers(es, spi))
    decreases |es|
  {
    if es == [] {
      assert Solo(db[slot].seqNumber, []) == [];
    } else {
      SoloStep(db, es[0], spi, slot, Numbers(es[1..], spi));
      HistoryIsOwn(Apply(db, es[0]), es[1..], spi, slot);
    }
  }

  /** Before it is known every packet of an SPI is dropped. */
  lemma {:induction false} UnknownIsDropped(db: Database, es: seq<Event>, spi: uint32)
    requires Lookup(Run(db, es), spi) == None
    ensures forall d :: d in History(db, es, spi) ==> !d
    decreases |es|
  {
    if es != [] {
      if Lookup(db, spi).Some? { SlotIsStable(db, es, spi); }
      UnknownIsDropped(Apply(db, es[0]), es[1..], spi);
    }
  }

  lemma {:induction false} RunSplit(db: Database, a: seq<Event>, b: seq<Event>, spi: uint32)
    ensures Run(db, a + b) == Run(Run(db, a), b)
    ensures History(db, a + b, spi) == History(db, a, spi) + History(Run(db, a), b, spi)
    decreases |a|
  {
    if a == [] {
      assert a + b == b;
    } else {
      assert (a + b)[1..] == a[1..] + b;
      var next := Apply(db, a[0]);
      RunSplit(next, a[1..], b, spi);
      assert Run(db, a) == Run(next, a[1..]);
      assert OwnDecision(db, a[0], spi) + (History(next, a[1..], spi) + History(Run(next, a[1..]), b, spi))
          == History(db, a, spi) + History(Run(db, a), b, spi);
    }
  }

  lemma AddRegisters(db: Database, e: Event)
    requires e.Add? && Lookup(db, e.spi) == None && |db| < MAX_SA
    ensures Lookup(Apply(db, e), e.spi) == Some(|db|) && |Apply(db, e)| == |db| + 1
  {
    var db' := Apply(db, e);
    assert forall i :: 0 <= i < |db| ==> db'[i].spi != e.spi;
    LookupUnique(db', e.spi, |db|);
  }

  lemma AddDecidesNothing(db: Database, e: Event, after: seq<Event>, spi: uint32)
    requires e.Add?
    ensures History(db, [e] + after, spi) == History(Apply(db, e), after, spi)
    ensures Run(db, [e] + after) == Run(Apply(db, e), after)
  {
    assert ([e] + after)[1..] == after;
    assert [] + History(Apply(db, e), after, spi) == History(Apply(db, e), after, spi);
  }

  /** Ten associations fit; further adds are refused. */
  lemma {:induction false} TableHoldsTen(db: Database, es: seq<Event>)
    requires |db| <= 10 && forall k :: 0 <= k < |es| ==> es[k].Add?
    ensures |Run(db, es)| == (if |db| + |es| <= 10 then |db| + |es| else 10) && db <= Run(db, es)
    decreases |es|
  {
    if es != [] { TableHoldsTen(Apply(db, es[0]), es[1..]); }
  }

  /** The first add of an SPI that finds room decides its parameters for good: through any
      run its slot keeps the algorithms, the first 63 characters of the description and the
      window of 64; only the number moves, and it starts at 0. */
  lemma {:induction false} ParametersAreKept(db: Database, es: seq<Event>, spi: uint32, slot: nat)
    requires Lookup(db, spi) == Some(slot)
    ensures Lookup(Run(db, es), spi) == Some(slot)
    ensures Run(db, es)[slot].(seqNumber := db[slot].seqNumber) == db[slot]
    decreases |es|
  {
    if es != [] {
      SlotStep(db, es[0], spi, slot);
      ParametersAreKept(Apply(db, es[0]), es[1..], spi, slot);
    }
  }

  lemma AddDecidesParameters(before: seq<Event>, add: Event, after: seq<Event>)
    requires add.Add? && Lookup(Run([], before), add.spi) == None && |Run([], before)| < MAX_SA
    ensures var db, slot := Run(Run([], before), [add] + after), |Run([], before)|;
            && Lookup(db, add.spi) == Some(slot)
            && db[slot].encryptionAlgo == add.encAlgo && db[slot].authAlgo == add.authAlgo
            && db[slot].description <= add.desc
            && (|db[slot].description| == if |add.desc| <= 63 then |add.desc| else 63)
            && db[slot].replayWindow == 64
            && db[slot].seqNumber == Highest(0, Numbers(after, add.spi))
  {
    var start := Run([], before);
    AddRegisters(start, add);
    AddDecidesNothing(start, add, after, add.spi);
    ParametersAreKept(Apply(start, add), after, add.spi, |start|);
    HistoryIsOwn(Apply(start, add), after, add.spi, |start|);
  }

  /** A whole run from the empty database, split at the first add of the SPI that
      found room: drops before it, the SPI's own strict maxima after it. */
  lemma WholeHistory(before: seq<Event>, add: Event, after: seq<Event>)
    requires add.Add? && Lookup(Run([], before), add.spi) == None && |Run([], before)| < MAX_SA
    ensures var dropped := History([], before, add.spi);
            && History([], before + ([add] + after), add.spi) == dropped + Solo(0, Numbers(after, add.spi))
            && forall d :: d in dropped ==> !d
  {
    var start := Run([], before);
    UnknownIsDropped([], before, add.spi);
    RunSplit([], before, [add] + after, add.spi);
    AddDecidesNothing(start, add, after, add.spi);
    AddRegisters(start, add);
    HistoryIsOwn(Apply(start, add), after, add.spi, |start|);
  }

  lemma {:induction false} HighestBounds(start: uint32, numbers: seq<uint32>, k: nat)
    requires k <= |numbers|
    ensures Highest(start, numbers[..k]) <= Highest(start, numbers)
    ensures k < |numbers| ==> numbers[k] <= Highest(start, numbers)
    ensures start <= Highest(start, numbers)
    ensures Highest(start, numbers) == start || Highest(start, numbers) in numbers
  {
    if numbers == [] {
      assert numbers[..k] == [];
    } else {
      var init := numbers[..|numbers| - 1];
      HighestBounds(start, init, if k < |numbers| then k else |init|);
      if k < |numbers| { assert init[..k] == numbers[..k]; } else { assert numbers[..k] == numbers; }
    }
  }

  /** Accepted numbers are non-zero and strictly increasing: no number is taken twice. */
  lemma AcceptedStrictlyIncrease(start: uint32, numbers: seq<uint32>, i: nat, j: nat)
    requires i < j < |numbers| && Solo(start, numbers)[i] && Solo(start, numbers)[j]
    ensures start < numbers[i] < numbers[j]
  {
    HighestBounds(start, numbers[..i], 0);
    HighestBounds(start, numbers[..j], i);
  }

  /** A packet is accepted exactly when its number exceeds every number of its SPI before it. */
  lemma AcceptedIffNewMaximum(start: uint32, numbers: seq<uint32>, j: nat)
    requires j < |numbers|
    ensures Solo(start, numbers)[j] <==> numbers[j] > start && forall i :: 0 <= i < j ==> numbers[j] > numbers[i]
  {
    HighestBounds(start, numbers[..j], j);
    forall i | 0 <= i < j ensures numbers[i] <= Highest(start, numbers[..j]) {
      HighestBounds(start, numbers[..j], i);
    }
  }
}

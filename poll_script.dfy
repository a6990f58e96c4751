/** The fixed polling script: the ordered table of OpenTherm exchanges with their failure
    counters, the cursor that walks it and the bookkeeping of responses. */
module PollScript {

  datatype MsgId = Status | TrSet | Tr | TSet | Toutside | Tret | Tboiler | RelModLevel | CHPressure | SlaveVersion

  /** The data-IDs of these messages in the OpenTherm Protocol Specification v2.2. */
  function DataId(m: MsgId): nat {
    match m
    case Status => 0
    case TSet => 1
    case TrSet => 16
    case RelModLevel => 17
    case CHPressure => 18
    case Tr => 24
    case Tboiler => 25
    case Toutside => 27
    case Tret => 28
    case SlaveVersion => 127
  }

  datatype MsgType = ReadData | WriteData

  /** The status the transport reports with a response. */
  datatype ResponseStatus = Success | Invalid | Timeout

  /** What builds the payload of an outgoing request (`getdata`), if anything. */
  datatype Producer = NoProducer | StatusProducer | RoomSetProducer | RoomProducer | SetPointProducer

  /** What takes the payload of a valid response (`setdata`), if anything. */
  datatype Consumer = NoConsumer | StatusConsumer | OutsideConsumer | InletConsumer | OutletConsumer
                    | ModLvlConsumer | PressureConsumer | VersionConsumer

  datatype Entry = Entry(failures: int, msgId: MsgId, msgType: MsgType, producer: Producer, consumer: Consumer)

  /** The script as the firmware starts with it. */
  const Script: seq<Entry> := [
    Entry(0, Status, ReadData, StatusProducer, StatusConsumer),
    Entry(0, TrSet, WriteData, RoomSetProducer, NoConsumer),
    Entry(0, Tr, WriteData, RoomProducer, NoConsumer),
    Entry(0, TSet, WriteData, SetPointProducer, NoConsumer),
    Entry(0, Toutside, ReadData, NoProducer, OutsideConsumer),
    Entry(0, Tret, ReadData, NoProducer, InletConsumer),
    Entry(0, Tboiler, ReadData, NoProducer, OutletConsumer),
    Entry(0, RelModLevel, ReadData, NoProducer, ModLvlConsumer),
    Entry(0, CHPressure, ReadData, NoProducer, PressureConsumer),
    Entry(0, SlaveVersion, ReadData, NoProducer, VersionConsumer)
  ]

  /** The shape of the table: SlaveVersion comes last and only there, the data-IDs are distinct,
      every counter starts at 0, and exactly the WRITE_DATA entries have a `getdata` function and
      exactly the READ_DATA entries a `setdata` function. */
  lemma ScriptLayout()
    ensures |Script| == Last + 1 && Script[Last].msgId == SlaveVersion
    ensures forall i :: 0 <= i < Last ==> Script[i].msgId != SlaveVersion
    ensures forall i, j :: 0 <= i < j < |Script| ==> DataId(Script[i].msgId) != DataId(Script[j].msgId)
    ensures forall i :: 0 <= i < |Script| ==> Script[i].failures == 0
    ensures forall i :: 0 <= i < |Script| ==>
      (Script[i].msgType == WriteData <==> Script[i].producer !in {NoProducer, StatusProducer})
    ensures forall i :: 0 <= i < |Script| ==> (Script[i].msgType == ReadData <==> Script[i].consumer != NoConsumer)
  {
  }

  /** Index of the SlaveVersion entry, the last one. */
  const Last: nat := 9
  /** An entry with this many failures is treated as unsupported and skipped. */
  const MaxFailures: int := 5
  /** Ceiling of the communication error counter. */
  const MaxCommErrors: int := 99
  /** Minimum spacing between two requests, in ms. */
  const SendSpacing: int := 2000
  /** Period of the automatic reset of the counters, in ms. */
  const ResetInterval: int := 15 * 60 * 1000

  /** The table entry `e` stands at position `i` of the script, whatever its failure count. */
  predicate IsScriptEntry(e: Entry, i: nat)
    requires i < |Script|
  {
    e == Script[i].(failures := e.failures)
  }

  function Failures(s: seq<Entry>): (f: seq<int>)
    ensures |f| == |s| && forall i :: 0 <= i < |s| ==> f[i] == s[i].failures
  {
    seq(|s|, i requires 0 <= i < |s| => s[i].failures)
  }

  /** The entry a response with data-ID `id` is charged to, scanning from `i`: the first whose
      data-ID matches, stopping at the SlaveVersion entry. */
  function LookupFrom(i: nat, id: int): (j: nat)
    requires i < |Script|
    decreases |Script| - i
    ensures i <= j < |Script|
    ensures DataId(Script[j].msgId) == id || j == Last
    ensures forall k :: i <= k < j ==> DataId(Script[k].msgId) != id
  {
    if DataId(Script[i].msgId) == id || Script[i].msgId == SlaveVersion then i
    else LookupFrom(i + 1, id)
  }

  /** The first entry with a matching data-ID, or SlaveVersion when none matches. */
  function Lookup(id: int): (i: nat)
    ensures i < |Script|
    ensures forall k :: 0 <= k < i ==> DataId(Script[k].msgId) != id
    ensures DataId(Script[i].msgId) == id || (i == Last && forall k :: 0 <= k < |Script| ==> DataId(Script[k].msgId) != id)
  {
    LookupFrom(0, id)
  }

  /** The cursor after an acting tick: the next entry, back to the first after SlaveVersion. */
  function NextCursor(c: nat): (n: nat)
    requires c < |Script|
    ensures n == (c + 1) % |Script|
  {
    if Script[c].msgId == SlaveVersion then 0 else c + 1
  }

  /** The cursor after `k` acting ticks. */
  function Advance(c: nat, k: nat): (n: nat)
    requires c < |Script|
    ensures n < |Script|
    decreases k
  {
    if k == 0 then c else Advance(NextCursor(c), k - 1)
  }

  /** After `k` acting ticks the cursor has moved `k` entries round the table. */
  lemma {:induction false} AdvanceModulo(c: nat, k: nat)
    requires c < |Script|
    ensures Advance(c, k) == (c + k) % |Script|
    decreases k
  {
    if k > 0 {
      AdvanceModulo(NextCursor(c), k - 1);
      StepModulo(c, k);
    }
  }

  /** One step and then k - 1 more is k steps round the table. */
  lemma StepModulo(c: nat, k: nat)
    requires c < |Script| && k > 0
    ensures ((c + 1) % |Script| + (k - 1)) % |Script| == (c + k) % |Script|
  {
    if c + 1 == |Script| {
      assert (k - 1 + |Script|) % |Script| == (k - 1) % |Script|;
    }
  }

  /** Ten acting ticks visit ten different entries, so every entry once, and bring the cursor back
      where it was. */
  lemma FullCycle(c: nat)
    requires c < |Script|
    ensures Advance(c, |Script|) == c
    ensures forall k, j :: 0 <= k < j < |Script| ==> Advance(c, k) != Advance(c, j)
  {
    AdvanceModulo(c, |Script|);
    forall k, j | 0 <= k < j < |Script| ensures Advance(c, k) != Advance(c, j) {
      DistinctSteps(c, k, j);
    }
  }

  /** Two different tick counts below ten leave the cursor at different entries. */
  lemma DistinctSteps(c: nat, k: nat, j: nat)
    requires c < |Script| && k < j < |Script|
    ensures Advance(c, k) != Advance(c, j)
  {
    AdvanceModulo(c, k);
    AdvanceModulo(c, j);
    WrapOnce(c + k);
    WrapOnce(c + j);
  }

  lemma WrapOnce(x: int)
    requires 0 <= x < 2 * |Script|
    ensures x % |Script| == if x < |Script| then x else x - |Script|
  {
  }

  /** The failure counters and the global communication error counter. */
  datatype Counters = Counters(failures: seq<int>, errors: int)

  predicate CountersValid(c: Counters) {
    |c.failures| == |Script| && 0 <= c.errors <= MaxCommErrors
  }

  /** The counters after a response charged to entry `i`. */
  function OnResponse(c: Counters, i: nat, valid: bool, status: ResponseStatus): (r: Counters)
    requires CountersValid(c) && i < |Script|
    ensures CountersValid(r)
  {
    if valid || Script[i].msgId == Status || Script[i].msgId == TSet then c
    else
      Counters(if status == Invalid then c.failures[i := c.failures[i] + 1] else c.failures,
               if status == Timeout then (if c.errors + 1 > MaxCommErrors then MaxCommErrors else c.errors + 1)
               else c.errors)
  }

  /** A valid response, or any response to the Status or TSet entry, changes no counter. */
  lemma IgnoredResponses(c: Counters, i: nat, valid: bool, status: ResponseStatus)
    requires CountersValid(c) && i < |Script|
    requires valid || Script[i].msgId in {Status, TSet}
    ensures OnResponse(c, i, valid, status) == c
  {
  }

  /** For any other entry an invalid response INVALID counts against that entry only, TIMEOUT
      counts against the link, saturating at 99; neither counter ever decreases. */
  lemma CountedResponses(c: Counters, i: nat, status: ResponseStatus)
    requires CountersValid(c) && i < |Script|
    requires Script[i].msgId !in {Status, TSet}
    ensures var r := OnResponse(c, i, false, status);
      && (forall j :: 0 <= j < |Script| && j != i ==> r.failures[j] == c.failures[j])
      && r.failures[i] == (if status == Invalid then c.failures[i] + 1 else c.failures[i])
      && r.errors == (if status == Timeout then Min(c.errors + 1, MaxCommErrors) else c.errors)
  {
  }

  function Min(x: int, y: int): int {
    if x <= y then x else y
  }

  /** `reset`: every counter before SlaveVersion back to 0; SlaveVersion's is left as it is. */
  function ResetFailures(f: seq<int>): (r: seq<int>)
    requires |f| == |Script|
    ensures |r| == |Script|
    ensures forall i :: 0 <= i < Last ==> r[i] == 0
    ensures r[Last] == f[Last]
  {
    seq(|Script|, i requires 0 <= i < |Script| => if i < Last then 0 else f[i])
  }

  /** An entry is sent on its turn while it has fewer than five failures. */
  predicate Eligible(f: seq<int>, i: nat)
    requires i < |f|
  {
    f[i] < MaxFailures
  }

  /** After a reset every entry but SlaveVersion is eligible again. */
  lemma ResetMakesEligible(f: seq<int>)
    requires |f| == |Script|
    ensures forall i :: 0 <= i < Last ==> Eligible(ResetFailures(f), i)
  {
  }

  /** Once SlaveVersion has five failures neither a response nor a reset makes it eligible
      again: it is skipped for good. */
  lemma SlaveVersionStaysSkipped(c: Counters, valid: bool, status: ResponseStatus, id: int)
    requires CountersValid(c) && !Eligible(c.failures, Last)
    ensures !Eligible(ResetFailures(c.failures), Last)
    ensures !Eligible(OnResponse(c, Lookup(id), valid, status).failures, Last)
  {
  }
}

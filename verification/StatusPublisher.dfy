/** The change-plus-heartbeat loop of status_publisher.py. A tick may fail to take its
    snapshot or to publish; the loop swallows both. Times are monotonic-clock reals. */
module StatusPublisher {
  import opened Common
  import opened ByteStrings
  import opened StatusWire

  datatype Trigger = Change | Heartbeat

  /** A published message and the clock reading of its tick. */
  datatype Message = Message(containers: seq<ContainerInfo>, trigger: Trigger, sequence: nat, sentAt: real)

  /** What the environment does during one tick. */
  datatype Tick = SnapshotFails | Snapshot(infos: seq<ContainerInfo>, now: real, putFails: bool)

  /** BLAKE2b; taken to be injective. */
  type Hash = Bytes -> Bytes

  ghost predicate Injective(hash: Hash) {
    forall x: Bytes, y: Bytes :: hash(x) == hash(y) ==> x == y
  }

  function DigestOf(hash: Hash, infos: seq<ContainerInfo>): Bytes {
    hash(Serialize(infos))
  }

  method Digest(hash: Hash, infos: seq<ContainerInfo>) returns (digest: Bytes)
    ensures digest == DigestOf(hash, infos)
  {
    var fed: Bytes := [];
    for i := 0 to |infos|
      invariant fed + Serialize(infos[i..]) == Serialize(infos)
    {
      var bytes := Encode(Fields(infos[i]));
      ghost var rest := Serialize(infos[i + 1..]);
      assert Serialize(infos[i..]) == bytes + rest by {
        assert infos[i..][1..] == infos[i + 1..];
      }
      Regroup(fed, bytes, rest);
      fed := fed + bytes;
    }
    assert fed == Serialize(infos);
    digest := hash(fed);
  }

  /** The change test is exact on container lists. */
  lemma DigestExact(hash: Hash, a: seq<ContainerInfo>, b: seq<ContainerInfo>)
    requires Injective(hash) && Named(a) && Named(b)
    ensures DigestOf(hash, a) == DigestOf(hash, b) <==> a == b
  {
    SerializeInjective(a, b);
  }

  // ---- the specification ----

  datatype Memory = Memory(sequence: nat, lastDigest: Option<Bytes>, lastSentAt: real, sent: seq<Message>)

  const START := Memory(0, None, 0.0, [])

  function Changed(hash: Hash, m: Memory, infos: seq<ContainerInfo>): bool {
    m.lastDigest != Some(DigestOf(hash, infos))
  }

  function Wants(hash: Hash, heartbeat: real, m: Memory, tick: Tick): bool {
    tick.Snapshot? && (Changed(hash, m, tick.infos) || tick.now - m.lastSentAt >= heartbeat)
  }

  /** The tick ran to its end. */
  predicate Succeeds(hash: Hash, heartbeat: real, m: Memory, tick: Tick) {
    tick.Snapshot? && !(tick.putFails && Wants(hash, heartbeat, m, tick))
  }

  function TickStep(hash: Hash, heartbeat: real, m: Memory, tick: Tick): Memory {
    if Wants(hash, heartbeat, m, tick) && !tick.putFails then
      var trigger := if Changed(hash, m, tick.infos) then Change else Heartbeat;
      Memory(m.sequence + 1, Some(DigestOf(hash, tick.infos)), tick.now,
             m.sent + [Message(tick.infos, trigger, m.sequence, tick.now)])
    else m
  }

  function Run(hash: Hash, heartbeat: real, ticks: seq<Tick>): Memory {
    if |ticks| == 0 then START else TickStep(hash, heartbeat, Run(hash, heartbeat, Front(ticks)), Last(ticks))
  }

  class ContainerStatusPublisher {
    const hash: Hash
    const heartbeat: real
    var sequence: nat
    var lastDigest: Option<Bytes>
    var lastSentAt: real
    /** What has been put on the wire. */
    var sent: seq<Message>
    ghost var ticks: seq<Tick>

    ghost predicate Valid()
      reads this
    {
      Memory(sequence, lastDigest, lastSentAt, sent) == Run(hash, heartbeat, ticks)
    }

    constructor (hash: Hash, heartbeat: real)
      ensures Valid() && ticks == [] && this.hash == hash && this.heartbeat == heartbeat
    {
      this.hash, this.heartbeat := hash, heartbeat;
      sequence, lastDigest, lastSentAt, sent, ticks := 0, None, 0.0, [], [];
    }

    /** Puts the message, and only then counts it. */
    method Publish(infos: seq<ContainerInfo>, trigger: Trigger, now: real, putFails: bool) returns (ok: bool)
      modifies this`sent, this`sequence
      ensures ok == !putFails
      ensures sent == if ok then old(sent) + [Message(infos, trigger, old(sequence), now)] else old(sent)
      ensures sequence == if ok then old(sequence) + 1 else old(sequence)
    {
      if putFails {
        return false;
      }
      sent := sent + [Message(infos, trigger, sequence, now)];
      sequence := sequence + 1;
      return true;
    }

    /** One pass of `_loop`. */
    method RunTick(tick: Tick)
      requires Valid()
      modifies this
      ensures Valid() && ticks == old(ticks) + [tick]
    {
      ticks := ticks + [tick];
      assert Front(ticks) == old(ticks);
      if tick.SnapshotFails? {
        return;
      }
      var digest := Digest(hash, tick.infos);
      var changed := Some(digest) != lastDigest;
      var due := tick.now - lastSentAt >= heartbeat;
      if changed || due {
        var ok := Publish(tick.infos, if changed then Change else Heartbeat, tick.now, tick.putFails);
        if ok {
          lastDigest := Some(digest);
          lastSentAt := tick.now;
        }
      }
    }
  }

  // ---- what a subscriber can rely on, over every run ----

  ghost predicate NamedTicks(ticks: seq<Tick>) {
    forall i :: 0 <= i < |ticks| && ticks[i].Snapshot? ==> Named(ticks[i].infos)
  }

  /** Message i says what it is: its number, and CHANGE exactly when its list is new. */
  ghost predicate MessageSound(heartbeat: real, sent: seq<Message>, i: nat)
    requires i < |sent|
  {
    && sent[i].sequence == i && Named(sent[i].containers)
    && (sent[i].trigger == Change <==> i == 0 || sent[i].containers != sent[i - 1].containers)
    && (sent[i].trigger == Heartbeat ==> i > 0 && sent[i].sentAt - sent[i - 1].sentAt >= heartbeat)
  }

  /** What the loop remembers agrees with what it has sent. */
  ghost predicate MemorySound(hash: Hash, heartbeat: real, m: Memory) {
    && |m.sent| == m.sequence
    && (forall i :: 0 <= i < |m.sent| ==> MessageSound(heartbeat, m.sent, i))
    && m.lastDigest == (if m.sent == [] then None else Some(DigestOf(hash, Last(m.sent).containers)))
    && (m.sent != [] ==> m.lastSentAt == Last(m.sent).sentAt)
  }

  /** The digest comparison decides whether the list differs from the last one sent. */
  lemma ChangedMeansDiffers(hash: Hash, heartbeat: real, m: Memory, infos: seq<ContainerInfo>)
    requires Injective(hash) && MemorySound(hash, heartbeat, m) && Named(infos)
    ensures Changed(hash, m, infos) <==> m.sent == [] || Last(m.sent).containers != infos
  {
    if m.sent != [] {
      assert MessageSound(heartbeat, m.sent, |m.sent| - 1);
      DigestExact(hash, Last(m.sent).containers, infos);
    }
  }

  lemma {:induction false} EveryMessageSound(hash: Hash, heartbeat: real, ticks: seq<Tick>)
    requires Injective(hash) && NamedTicks(ticks)
    ensures MemorySound(hash, heartbeat, Run(hash, heartbeat, ticks))
  {
    if |ticks| > 0 {
      EveryMessageSound(hash, heartbeat, Front(ticks));
      var before, tick := Run(hash, heartbeat, Front(ticks)), Last(ticks);
      if Wants(hash, heartbeat, before, tick) && !tick.putFails {
        SendingKeepsSound(hash, heartbeat, before, tick);
      }
    }
  }

  lemma SendingKeepsSound(hash: Hash, heartbeat: real, before: Memory, tick: Tick)
    requires Injective(hash) && MemorySound(hash, heartbeat, before)
    requires Wants(hash, heartbeat, before, tick) && !tick.putFails && Named(tick.infos)
    ensures MemorySound(hash, heartbeat, TickStep(hash, heartbeat, before, tick))
  {
    ChangedMeansDiffers(hash, heartbeat, before, tick.infos);
    var changed := Changed(hash, before, tick.infos);
    var trigger := if changed then Change else Heartbeat;
    var message := Message(tick.infos, trigger, before.sequence, tick.now);
    assert TickStep(hash, heartbeat, before, tick).sent == before.sent + [message];
    OneMoreSound(heartbeat, before.sent, message);
  }

  lemma OneMoreSound(heartbeat: real, sent: seq<Message>, message: Message)
    requires forall i :: 0 <= i < |sent| ==> MessageSound(heartbeat, sent, i)
    requires message.sequence == |sent| && Named(message.containers)
    requires message.trigger == Change <==> sent == [] || message.containers != Last(sent).containers
    requires message.trigger == Heartbeat ==> sent != [] && message.sentAt - Last(sent).sentAt >= heartbeat
    ensures var all := sent + [message]; forall i :: 0 <= i < |all| ==> MessageSound(heartbeat, all, i)
  {
    var all := sent + [message];
    forall i | 0 <= i < |all| ensures MessageSound(heartbeat, all, i) {
      if i < |sent| {
        assert MessageSound(heartbeat, sent, i);
        assert all[i] == sent[i] && (i > 0 ==> all[i - 1] == sent[i - 1]);
      } else {
        assert all[i] == message && (i > 0 ==> all[i - 1] == Last(sent));
      }
    }
  }

  /** What one more tick sends after any run: its snapshot, if that differs from the last
      message or a heartbeat has passed since; and nothing if the snapshot or the put fails. */
  lemma SendsExactlyWhen(hash: Hash, heartbeat: real, ticks: seq<Tick>)
    requires Injective(hash) && NamedTicks(ticks) && |ticks| > 0
    ensures var before, after := Run(hash, heartbeat, Front(ticks)).sent, Run(hash, heartbeat, ticks).sent;
      match Last(ticks)
      case SnapshotFails => after == before
      case Snapshot(infos, now, putFails) =>
        var news := before == [] || Last(before).containers != infos;
        var due := before != [] && now - Last(before).sentAt >= heartbeat;
        after == if (news || due) && !putFails
                 then before + [Message(infos, if news then Change else Heartbeat, |before|, now)]
                 else before
  {
    var m := Run(hash, heartbeat, Front(ticks));
    EveryMessageSound(hash, heartbeat, Front(ticks));
    if Last(ticks).Snapshot? {
      ChangedMeansDiffers(hash, heartbeat, m, Last(ticks).infos);
    }
  }

  /** After every successful tick a subscriber that holds the last message agrees with the
      host, and that message is less than a heartbeat old or has just been sent. */
  lemma SubscriberAgrees(hash: Hash, heartbeat: real, ticks: seq<Tick>)
    requires Injective(hash) && NamedTicks(ticks) && |ticks| > 0
    requires Succeeds(hash, heartbeat, Run(hash, heartbeat, Front(ticks)), Last(ticks))
    ensures var m := Run(hash, heartbeat, ticks);
      && m.sent != []
      && Last(m.sent).containers == Last(ticks).infos
      && (Last(ticks).now - Last(m.sent).sentAt < heartbeat || Last(m.sent).sentAt == Last(ticks).now)
  {
    var before := Run(hash, heartbeat, Front(ticks));
    EveryMessageSound(hash, heartbeat, Front(ticks));
    ChangedMeansDiffers(hash, heartbeat, before, Last(ticks).infos);
  }

  /** The time of the last successful tick. */
  function LastSuccess(hash: Hash, heartbeat: real, ticks: seq<Tick>): Option<real> {
    if |ticks| == 0 then None
    else if Succeeds(hash, heartbeat, Run(hash, heartbeat, Front(ticks)), Last(ticks)) then Some(Last(ticks).now)
    else LastSuccess(hash, heartbeat, Front(ticks))
  }

  /** Successful ticks follow each other within `d`; failing ones may come between. */
  ghost predicate Spaced(hash: Hash, heartbeat: real, ticks: seq<Tick>, d: real) {
    |ticks| > 0 ==>
      && Spaced(hash, heartbeat, Front(ticks), d)
      && (Succeeds(hash, heartbeat, Run(hash, heartbeat, Front(ticks)), Last(ticks)) ==>
           match LastSuccess(hash, heartbeat, Front(ticks))
           case None => true
           case Some(t) => Last(ticks).now - t <= d)
  }

  /** Then no two messages in a row are more than a heartbeat and `d` apart. */
  lemma {:induction false} MessageGapBounded(hash: Hash, heartbeat: real, ticks: seq<Tick>, d: real)
    requires heartbeat >= 0.0 && d >= 0.0 && Spaced(hash, heartbeat, ticks, d)
    ensures var m := Run(hash, heartbeat, ticks);
      && (forall i :: 0 < i < |m.sent| ==> m.sent[i].sentAt - m.sent[i - 1].sentAt <= heartbeat + d)
      && (LastSuccess(hash, heartbeat, ticks).Some? <==> m.sent != [])
      && (m.lastDigest.Some? <==> m.sent != [])
      && (m.sent != [] ==> m.lastSentAt == Last(m.sent).sentAt)
      && (m.sent != [] ==> LastSuccess(hash, heartbeat, ticks).value - m.lastSentAt <= heartbeat)
  {
    if |ticks| > 0 {
      MessageGapBounded(hash, heartbeat, Front(ticks), d);
    }
  }
}

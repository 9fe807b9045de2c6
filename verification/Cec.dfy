/** The workaround itself, callback by callback (src/MQTTBridge/cec.py, `CecPublisher`). */
module Cec {
  import opened Options
  import opened CecSpec
  import CecProofs

  /** What the module shares with the receiver's image. */
  class Receiver {
    var queue: seq<Item>
    var flags: map<nat, Flag>
    var instance: Option<nat>
    var nextId: nat
    ghost var fromTv: set<nat>

    constructor (queue: seq<Item>, flags: map<nat, Flag>, instance: Option<nat>, nextId: nat)
      ensures this.queue == queue && this.flags == flags && this.instance == instance
      ensures this.nextId == nextId && fromTv == {}
    {
      this.queue, this.flags, this.instance, this.nextId, fromTv := queue, flags, instance, nextId, {};
    }
  }

  class CecPublisher {
    const receiver: Receiver
    var bound: bool
    var queued: seq<Tracked>
    var hold: Option<Hold>
    var count: nat
    var kind: Option<Kind>
    var lastIntervention: Option<int>
    var acting: bool
    var settling: bool
    var holding: bool
    ghost var identified: nat

    ghost function Model(): State
      reads this, receiver
    {
      State(Image(receiver.queue, receiver.flags, receiver.instance, receiver.nextId, receiver.fromTv),
            Watch(bound, queued, identified, hold, acting, settling, holding),
            Report(count, kind, lastIntervention))
    }

    constructor (receiver: Receiver)
      ensures this.receiver == receiver
      ensures Model().watch == Watch(true, [], 0, None, false, false, false) && Model().report == Report(0, None, None)
    {
      this.receiver := receiver;
      bound, queued, identified, hold := true, [], 0, None;
      count, kind, lastIntervention := 0, None, None;
      acting, settling, holding := false, false, false;
    }

    /** Called by the image for every notification it queues. */
    method NotificationAdded()
      modifies this
      ensures Model().watch == Noticed(old(Model()).image, old(Model()).watch) && Model().report == old(Model()).report
    {
      if !bound { return; }
      if receiver.queue == [] { return; }
      var entry := receiver.queue[|receiver.queue| - 1];
      if !entry.standby { return; }
      if receiver.instance.None? { return; }
      var i := receiver.instance.value;
      if (if i in receiver.flags then receiver.flags[i] else Clear) != FromTv { return; }
      if exists k :: 0 <= k < |queued| && queued[k].entry.id == entry.id { return; }
      queued := queued + [Tracked(entry, false, None)];
      identified := identified + 1;
      acting := true;
    }

    method StillQueued(id: nat) returns (found: bool)
      ensures found <==> Queued(receiver.queue, id)
    {
      var i := 0;
      while i < |receiver.queue|
        invariant 0 <= i <= |receiver.queue| && forall k :: 0 <= k < i ==> receiver.queue[k].id != id
      {
        if receiver.queue[i].id == id { return true; }
        i := i + 1;
      }
      return false;
    }

    method ActTimer(dialog: Dialog, now: int)
      requires acting
      modifies this, receiver`flags
      ensures Model() == Step(old(Model()), Act(dialog, now))
    {
      acting := false;
      var waiting := NotDrained();
      queued := waiting;
      if AllActed(waiting) { return; }
      if dialog.ChannelList? { StartHold(); }
      queued := Marked(waiting, ClosedAt(dialog, now));
    }

    /** What is left once the standbys the info bar took in the same turn are forgotten. */
    method NotDrained() returns (waiting: seq<Tracked>)
      ensures waiting == StillWaiting(queued, receiver.queue)
    {
      waiting := [];
      var i := 0;
      while i < |queued|
        invariant 0 <= i <= |queued|
          && StillWaiting(queued, receiver.queue) == waiting + StillWaiting(queued[i..], receiver.queue)
      {
        assert queued[i..][0] == queued[i] && queued[i..][1..] == queued[i + 1..];
        var there := StillQueued(queued[i].entry.id);
        if queued[i].acted || there { waiting := waiting + [queued[i]]; }
        i := i + 1;
      }
      assert queued[i..] == [] && waiting + [] == waiting;
    }

    method StartHold()
      modifies this`hold, this`holding, receiver`flags
      ensures hold == StartedHold(old(Model()).image, old(hold)) && holding == (old(holding) || hold.Some?)
      ensures receiver.flags == HeldFlags(old(receiver.flags), hold)
    {
      if hold.Some? {
        receiver.flags := receiver.flags[hold.value.instance := Held];
        holding := true;
        return;
      }
      if receiver.instance.None? { return; }
      var i := receiver.instance.value;
      var previous := if i in receiver.flags then receiver.flags[i] else Clear;
      receiver.flags := receiver.flags[i := Held];
      hold := Some(CecSpec.Hold(i, previous));
      holding := true;
    }

    method ReleaseHold()
      modifies this`hold, this`holding, receiver`flags
      ensures hold.None? && !holding && receiver.flags == PutBack(old(receiver.flags), old(hold))
    {
      var held := hold;
      hold, holding := None, false;
      if held.None? { return; }
      receiver.flags := receiver.flags[held.value.instance := held.value.previous];
    }

    method HoldTimer()
      requires holding
      modifies this`hold, this`holding, receiver`flags
      ensures Model() == Step(old(Model()), HoldExpired)
    {
      ReleaseHold();
    }

    method CounterNotifier()
      modifies this`settling
      ensures Model() == Step(old(Model()), CounterMoved)
    {
      if bound && (hold.Some? || queued != []) { settling := true; }
    }

    /** By identity, and nothing else. */
    method RemoveFromQueue(id: nat) returns (removed: bool)
      modifies receiver`queue
      ensures receiver.queue == Without(old(receiver.queue), id)
      ensures removed <==> Queued(old(receiver.queue), id)
    {
      var i := 0;
      while i < |receiver.queue|
        invariant 0 <= i <= |receiver.queue| && receiver.queue == old(receiver.queue)
        invariant forall k :: 0 <= k < i ==> receiver.queue[k].id != id
      {
        if receiver.queue[i].id == id {
          WithoutAt(receiver.queue, id, i);
          receiver.queue := receiver.queue[..i] + receiver.queue[i + 1..];
          return true;
        }
        i := i + 1;
      }
      WithoutNothing(receiver.queue, id);
      return false;
    }

    method CountIntervention(what: Kind, when: int)
      modifies this`count, this`kind, this`lastIntervention
      ensures Report(count, kind, lastIntervention) == Intervened(old(Model()).report, what, when)
    {
      count, kind, lastIntervention := count + 1, Some(what), Some(when);
    }

    method SettleTimer(now: int)
      requires settling
      modifies this, receiver`queue, receiver`flags
      ensures Model() == Step(old(Model()), Settle(now))
    {
      ReleaseHold();
      settling := false;
      var carried, waiting := Sort();
      CecProofs.WaitingIsPart(queued, receiver.queue);
      queued := [];
      var removed := RemoveAll(waiting);
      CountSettled(carried, waiting, removed, now);
    }

    method CountSettled(carried: seq<Tracked>, ghost waiting: seq<Tracked>, removed: bool, now: int)
      requires removed <==> waiting != []
      modifies this`count, this`kind, this`lastIntervention
      ensures Report(count, kind, lastIntervention) == Settled(old(Model()).report, carried, waiting, now)
    {
      var closed := LastClose(carried);
      if closed.Some? { CountIntervention(KindClosed, closed.value); }
      if closed.None? && removed && carried == [] { CountIntervention(KindDropped, now); }
    }

    /** The followed standbys: those the info bar took, and those still in the queue. */
    method Sort() returns (carried: seq<Tracked>, waiting: seq<Tracked>)
      ensures carried == Carried(queued, receiver.queue) && waiting == Waiting(queued, receiver.queue)
    {
      carried, waiting := [], [];
      var i := 0;
      while i < |queued|
        invariant 0 <= i <= |queued|
        invariant Carried(queued, receiver.queue) == carried + Carried(queued[i..], receiver.queue)
        invariant Waiting(queued, receiver.queue) == waiting + Waiting(queued[i..], receiver.queue)
      {
        assert queued[i..][0] == queued[i] && queued[i..][1..] == queued[i + 1..];
        var there := StillQueued(queued[i].entry.id);
        if there { waiting := waiting + [queued[i]]; } else { carried := carried + [queued[i]]; }
        i := i + 1;
      }
      assert queued[i..] == [] && waiting + [] == waiting && carried + [] == carried;
    }

    method RemoveAll(waiting: seq<Tracked>) returns (removed: bool)
      requires forall t :: t in waiting ==> Queued(receiver.queue, t.entry.id)
      modifies receiver`queue
      ensures receiver.queue == WithoutAll(old(receiver.queue), waiting)
      ensures removed <==> waiting != []
    {
      removed := false;
      var i := 0;
      while i < |waiting|
        invariant 0 <= i <= |waiting| && removed == (i > 0)
        invariant i == 0 ==> receiver.queue == old(receiver.queue)
        invariant WithoutAll(receiver.queue, waiting[i..]) == WithoutAll(old(receiver.queue), waiting)
      {
        assert waiting[i..][0] == waiting[i] && waiting[i..][1..] == waiting[i + 1..] && waiting[i] in waiting;
        var gone := RemoveFromQueue(waiting[i].entry.id);
        removed := removed || gone;
        i := i + 1;
      }
    }

    method StaleTimer(id: nat, now: int)
      modifies this, receiver`queue
      ensures Model() == Step(old(Model()), Stale(id, now))
    {
      var tracked := Find(queued, id);
      if tracked.None? { return; }
      queued := Untracked(queued, id);
      var removed := RemoveFromQueue(id);
      if removed {
        CountIntervention(KindDropped, now);
      } else if tracked.value.closedAt.Some? {
        CountIntervention(KindClosed, tracked.value.closedAt.value);
      }
    }

    method StopAll()
      modifies this, receiver`flags
      ensures Model() == Step(old(Model()), Stop)
    {
      ReleaseHold();
      bound, acting, settling, queued := false, false, false, [];
    }
  }

  /** The image's `__AddNotification`: the info bar's callback takes what it takes, before the module's or after it. */
  method AddNotification(publisher: CecPublisher, standby: bool, content: string, before: nat, after: nat)
    modifies publisher, publisher.receiver
    ensures publisher.Model() == Added(old(publisher.Model()), standby, content, before, after)
  {
    var image := publisher.receiver;
    AppendItem(image, standby, content);
    image.queue := Drained(image.queue, before);
    publisher.NotificationAdded();
    image.queue := Drained(image.queue, after);
  }

  method AppendItem(image: Receiver, standby: bool, content: string)
    modifies image`queue, image`nextId
    ensures image.queue == old(image.queue) + [Item(old(image.nextId), standby, content)]
      && image.nextId == old(image.nextId) + 1
  {
    image.queue := image.queue + [Item(image.nextId, standby, content)];
    image.nextId := image.nextId + 1;
  }

  /** `HdmiCec.messageReceived`: the television's standby, inside its bracket. */
  method StandbyFromTv(publisher: CecPublisher, content: string, before: nat, after: nat)
    requires publisher.receiver.instance.Some?
    modifies publisher, publisher.receiver
    ensures publisher.Model() == Step(old(publisher.Model()), TvStandby(content, before, after))
  {
    var image := publisher.receiver;
    var i := image.instance.value;
    image.flags := image.flags[i := FromTv];
    image.fromTv := image.fromTv + {image.nextId};
    AddNotification(publisher, true, content, before, after);
    image.flags := image.flags[i := Clear];
  }

  lemma {:induction false} WithoutAt(queue: seq<Item>, id: nat, i: nat)
    requires i < |queue| && queue[i].id == id && forall k :: 0 <= k < i ==> queue[k].id != id
    ensures Without(queue, id) == queue[..i] + queue[i + 1..]
  {
    if i == 0 {
    } else {
      WithoutAt(queue[1..], id, i - 1);
      assert queue[1..][..i - 1] == queue[1..i] && queue[1..][i..] == queue[i + 1..];
      assert [queue[0]] + queue[1..i] == queue[..i];
    }
  }

  lemma {:induction false} WithoutNothing(queue: seq<Item>, id: nat)
    requires !Queued(queue, id)
    ensures Without(queue, id) == queue
  {
    if queue == [] {
    } else {
      assert queue[0].id != id;
      forall k | 0 <= k < |queue[1..]| ensures queue[1..][k].id != id { assert queue[1..][k] == queue[k + 1]; }
      WithoutNothing(queue[1..], id);
    }
  }
}

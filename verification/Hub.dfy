/**
 The WebSocket hub (internal/ws/ws.go) as interleaved steps: emitters offer messages to a bounded
 channel, one loop takes them and writes each to every member under the lock, and connections
 join and leave under the same lock.
 */
module Hub {
  import opened Wrappers

  type Client(==, !new, 0)
  type Message(==, !new, 0)

  const CAPACITY := 1024

  /** One stay of a client: how many messages were broadcast before it, and what it was sent. */
  datatype Membership = Membership(since: nat, log: seq<Message>)

  datatype State = State(
    channel: seq<Message>,              // accepted and not yet taken
    inHand: Option<Message>,            // taken by the loop and not yet written
    clients: map<Client, Membership>,
    ended: seq<Membership>,             // the stays that are over
    delivered: nat,                     // how many messages the loop has written to the members of the time
    accepted: seq<Message>,             // every message the channel ever took, in order
    refused: seq<Message>)

  datatype Event = Emit(message: Message) | Take | Deliver | Join(client: Client) | Leave(client: Client)

  function Start(): State {
    State([], None, map[], [], 0, [], [])
  }

  predicate Enabled(s: State, e: Event) {
    match e
    case Take => s.inHand.None? && s.channel != []
    case Deliver => s.inHand.Some?
    case _ => true
  }

  function Sent(m: Membership, message: Message): Membership {
    m.(log := m.log + [message])
  }

  function Next(s: State, e: Event): State
    requires Enabled(s, e)
  {
    match e
    case Emit(message) =>
      if |s.channel| < CAPACITY
      then s.(channel := s.channel + [message], accepted := s.accepted + [message])
      else s.(refused := s.refused + [message])
    case Take => s.(channel := s.channel[1..], inHand := Some(s.channel[0]))
    case Deliver =>
      s.(inHand := None, delivered := s.delivered + 1,
        clients := map c | c in s.clients :: Sent(s.clients[c], s.inHand.value))
    case Join(client) =>
      if client in s.clients then s
      else s.(clients := s.clients[client := Membership(s.delivered, [])])
    case Leave(client) =>
      if client !in s.clients then s
      else s.(clients := s.clients - {client}, ended := s.ended + [s.clients[client]])
  }

  /** The hub object: its members, its buffered channel, and the message its loop is busy with. */
  class Broadcaster {
    var clients: set<Client>
    var broadcast: seq<Message>
    var current: Option<Message>
    var sent: map<Client, seq<Message>>      // what was written to each member since it joined
    ghost var since: map<Client, nat>
    ghost var ended: seq<Membership>
    ghost var delivered: nat
    ghost var accepted: seq<Message>
    ghost var refused: seq<Message>

    ghost predicate Valid()
      reads this
    {
      clients == sent.Keys == since.Keys
    }

    ghost function View(): State
      requires Valid()
      reads this
    {
      var stays := map c | c in clients :: Membership(since[c], sent[c]);
      State(broadcast, current, stays, ended, delivered, accepted, refused)
    }

    constructor ()
      ensures Valid() && View() == Start()
    {
      clients, broadcast, current, sent := {}, [], None, map[];
      since, ended, delivered, accepted, refused := map[], [], 0, [], [];
    }

    method EmitMessage(message: Message) returns (taken: bool)
      requires Valid()
      modifies this
      ensures Valid() && View() == Next(old(View()), Emit(message))
      ensures taken <==> |old(broadcast)| < CAPACITY
    {
      taken := |broadcast| < CAPACITY;
      if taken {
        broadcast := broadcast + [message];
        accepted := accepted + [message];
      } else {
        refused := refused + [message];
      }
    }

    /** The loop receives from the channel, outside the lock. */
    method Receive()
      requires Valid() && Enabled(View(), Take)
      modifies this
      ensures Valid() && View() == Next(old(View()), Take)
    {
      current, broadcast := Some(broadcast[0]), broadcast[1..];
    }

    /** Writes to one connection after the other, in no particular order. */
    method WriteEach(message: Message)
      requires Valid()
      modifies this`sent
      ensures Valid() && forall c :: c in clients ==> sent[c] == old(sent)[c] + [message]
    {
      var waiting := clients;
      ghost var before := sent;
      while waiting != {}
        invariant waiting <= clients == sent.Keys == before.Keys
        invariant forall c :: c in waiting ==> sent[c] == before[c]
        invariant forall c :: c in clients && c !in waiting ==> sent[c] == before[c] + [message]
        decreases |waiting|
      {
        var c :| c in waiting;
        sent := sent[c := sent[c] + [message]];
        waiting := waiting - {c};
      }
    }

    /** The loop's turn under the lock. */
    method WriteToAll()
      requires Valid() && Enabled(View(), Deliver)
      modifies this
      ensures Valid() && View() == Next(old(View()), Deliver)
    {
      WriteEach(current.value);
      current := None;
      delivered := delivered + 1;
      assert View().clients == Next(old(View()), Deliver).clients;
    }

    method Register(client: Client)
      requires Valid()
      modifies this
      ensures Valid() && View() == Next(old(View()), Join(client))
    {
      if client !in clients {
        clients := clients + {client};
        sent := sent[client := []];
        since := since[client := delivered];
      }
      assert View().clients == Next(old(View()), Join(client)).clients;
    }

    /** Called by the close handler and when the reader ends; the second call finds nothing. */
    method Unregister(client: Client)
      requires Valid()
      modifies this
      ensures Valid() && View() == Next(old(View()), Leave(client))
    {
      if client in clients {
        ended := ended + [Membership(since[client], sent[client])];
        clients, sent, since := clients - {client}, sent - {client}, since - {client};
      }
      assert View().clients == Next(old(View()), Leave(client)).clients;
    }
  }

  // -------------------------------------------------------------------------- what all runs keep

  /** The log of a stay is a piece of the accepted messages, from where it began. */
  ghost predicate Contiguous(m: Membership, s: State) {
    m.since + |m.log| <= |s.accepted| && m.log == s.accepted[m.since..m.since + |m.log|]
  }

  ghost predicate Sound(s: State) {
    && |s.channel| <= CAPACITY
    && s.delivered + (if s.inHand.Some? then 1 else 0) + |s.channel| == |s.accepted|
    && s.accepted == s.accepted[..s.delivered] + (if s.inHand.Some? then [s.inHand.value] else []) + s.channel
    && (forall c :: c in s.clients ==>
          s.clients[c].since + |s.clients[c].log| == s.delivered && Contiguous(s.clients[c], s))
    && (forall i :: 0 <= i < |s.ended| ==> Contiguous(s.ended[i], s))
  }

  lemma ContiguousGrows(m: Membership, s: State, t: State)
    requires Contiguous(m, s) && s.accepted <= t.accepted
    ensures Contiguous(m, t)
  {
  }

  lemma EmitKeepsSound(s: State, message: Message)
    requires Sound(s)
    ensures Sound(Next(s, Emit(message)))
  {
    var t := Next(s, Emit(message));
    if |s.channel| < CAPACITY {
      assert t.delivered == s.delivered;
      assert t.accepted[..t.delivered] == s.accepted[..s.delivered];
      forall c | c in t.clients
        ensures Contiguous(t.clients[c], t)
      {
        ContiguousGrows(s.clients[c], s, t);
      }
      forall i | 0 <= i < |t.ended|
        ensures Contiguous(t.ended[i], t)
      {
        ContiguousGrows(s.ended[i], s, t);
      }
    }
  }

  lemma DeliverKeepsSound(s: State)
    requires Sound(s) && s.inHand.Some?
    ensures Sound(Next(s, Deliver))
  {
  }

  lemma TakeKeepsSound(s: State)
    requires Sound(s) && Enabled(s, Take)
    ensures Sound(Next(s, Take))
  {
  }

  lemma MembersKeepSound(s: State, e: Event)
    requires Sound(s) && (e.Join? || e.Leave?)
    ensures Sound(Next(s, e))
  {
    var t := Next(s, e);
    assert t.accepted == s.accepted && t.delivered == s.delivered;
    forall c | c in t.clients
      ensures t.clients[c].since + |t.clients[c].log| == t.delivered && Contiguous(t.clients[c], t)
    {
      if c in s.clients {
        ContiguousGrows(s.clients[c], s, t);
      }
    }
    forall i | 0 <= i < |t.ended|
      ensures Contiguous(t.ended[i], t)
    {
      ContiguousGrows(if i < |s.ended| then s.ended[i] else s.clients[e.client], s, t);
    }
  }

  lemma StepKeepsSound(s: State, e: Event)
    requires Sound(s) && Enabled(s, e)
    ensures Sound(Next(s, e))
  {
    match e
    case Emit(message) => EmitKeepsSound(s, message);
    case Take => TakeKeepsSound(s);
    case Deliver => DeliverKeepsSound(s);
    case _ => MembersKeepSound(s, e);
  }

  ghost predicate Run(s: State, events: seq<Event>, t: State)
    decreases |events|
  {
    if events == [] then s == t
    else Enabled(s, events[0]) && Run(Next(s, events[0]), events[1..], t)
  }

  lemma {:induction false} RunKeepsSound(s: State, events: seq<Event>, t: State)
    requires Sound(s) && Run(s, events, t)
    ensures Sound(t) && s.accepted <= t.accepted
    decreases |events|
  {
    if events == [] {
    } else {
      StepKeepsSound(s, events[0]);
      RunKeepsSound(Next(s, events[0]), events[1..], t);
    }
  }

  /**
   In every run: what a client is sent during one stay is a contiguous piece of the accepted
   messages, from the first one broadcast after it joined to the last one broadcast so far.
   */
  lemma MembersMissNothing(events: seq<Event>, t: State, c: Client)
    requires Run(Start(), events, t) && c in t.clients
    ensures var m := t.clients[c];
      && m.since <= t.delivered <= |t.accepted|
      && m.log == t.accepted[m.since..t.delivered]
  {
    RunKeepsSound(Start(), events, t);
  }

  /** The same holds up to the end of every stay that is over. */
  lemma EndedStaysAreContiguous(events: seq<Event>, t: State, i: nat)
    requires Run(Start(), events, t) && i < |t.ended|
    ensures Contiguous(t.ended[i], t)
  {
    RunKeepsSound(Start(), events, t);
  }

  /** Of two clients present, the one that joined later was sent the tail of what the other was sent. */
  lemma LaterMemberSeesTheTail(events: seq<Event>, t: State, c: Client, d: Client)
    requires Run(Start(), events, t) && c in t.clients && d in t.clients
    requires t.clients[c].since <= t.clients[d].since
    ensures |t.clients[d].log| <= |t.clients[c].log|
    ensures t.clients[d].log == t.clients[c].log[|t.clients[c].log| - |t.clients[d].log|..]
  {
    RunKeepsSound(Start(), events, t);
    var (m, n, k) := (t.clients[c], t.clients[d], t.delivered);
    assert m.log == t.accepted[m.since..k] && n.log == t.accepted[n.since..k];
  }

  /** Every emitted message is in exactly one list, in order; it is refused only behind a full channel. */
  lemma RefusedOnlyWhenFull(events: seq<Event>, t: State, message: Message)
    requires Run(Start(), events, t)
    ensures var u := Next(t, Emit(message));
      if |t.channel| < 1024 then u == t.(channel := t.channel + [message], accepted := t.accepted + [message])
      else |t.channel| == 1024 && u == t.(refused := t.refused + [message])
  {
    RunKeepsSound(Start(), events, t);
  }

  function Emitted(events: seq<Event>): multiset<Message>
    decreases |events|
  {
    if events == [] then multiset{}
    else (if events[0].Emit? then multiset{events[0].message} else multiset{}) + Emitted(events[1..])
  }

  /** Nothing is lost or made up: the emitted messages are the accepted and the refused ones. */
  lemma {:induction false} Conservation(s: State, events: seq<Event>, t: State)
    requires Run(s, events, t)
    ensures multiset(t.accepted) + multiset(t.refused) == multiset(s.accepted) + multiset(s.refused) + Emitted(events)
    decreases |events|
  {
    if events == [] {
    } else {
      Conservation(Next(s, events[0]), events[1..], t);
    }
  }

  // ------------------------------------------------------------------- joining and leaving

  /** A client that joins is sent nothing of what was delivered before; joining twice is joining once. */
  lemma JoiningMakesAMember(s: State, c: Client)
    ensures var t := Next(s, Join(c));
      && c in t.clients && (c !in s.clients ==> t.clients[c] == Membership(s.delivered, []))
      && (forall d :: d in s.clients ==> d in t.clients && t.clients[d] == s.clients[d])
      && t == s.(clients := t.clients) && Next(t, Join(c)) == t
  {
  }

  /** A client that leaves is no member, and its stay is over; nothing else changes. */
  lemma LeavingEndsTheStay(s: State, c: Client)
    ensures var t := Next(s, Leave(c));
      && c !in t.clients
      && (forall d :: d in s.clients && d != c ==> d in t.clients && t.clients[d] == s.clients[d])
      && t.ended == s.ended + (if c in s.clients then [s.clients[c]] else [])
      && t == s.(clients := t.clients, ended := t.ended) && Next(t, Leave(c)) == t
  {
  }

  lemma {:induction false} StaysUntilItLeaves(s: State, events: seq<Event>, t: State, c: Client)
    requires c in s.clients && Run(s, events, t) && Leave(c) !in events
    ensures c in t.clients && t.clients[c].since == s.clients[c].since
    decreases |events|
  {
    if events == [] {
    } else {
      var e := events[0];
      assert e in events;
      StaysUntilItLeaves(Next(s, e), events[1..], t, c);
    }
  }

  /**
   A client that joined and did not leave has been sent every message delivered since, in
   order: those after the messages delivered before it joined.
   */
  lemma SentEverythingSinceJoining(before: seq<Event>, s: State, c: Client, after: seq<Event>, t: State)
    requires Run(Start(), before, s) && c !in s.clients
    requires Run(Next(s, Join(c)), after, t) && Leave(c) !in after
    ensures c in t.clients && s.delivered <= t.delivered <= |t.accepted|
    ensures t.clients[c].log == t.accepted[s.delivered..t.delivered]
  {
    var joined := Next(s, Join(c));
    RunKeepsSound(Start(), before, s);
    StepKeepsSound(s, Join(c));
    RunKeepsSound(joined, after, t);
    StaysUntilItLeaves(joined, after, t, c);
  }
}

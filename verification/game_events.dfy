/** The React–Phaser event bus (lib/clown-club/gameEvents.ts): per-event
    handler lists in registration order. Handlers are opaque values of a
    type H compared by identity, as `indexOf` compares them; calling a
    handler is recorded as a (handler, arguments) pair. */
module GameEvents {
  import opened Wrappers
  import opened Seqs

  /** `listeners`: event name to its handler list. */
  type Listeners<H> = map<string, seq<H>>

  function Handlers<H>(ls: Listeners<H>, event: string): seq<H> {
    if event in ls then ls[event] else []
  }

  /** `on`: append to the event's list, creating it if needed. */
  function On<H>(ls: Listeners<H>, event: string, h: H): (r: Listeners<H>)
    ensures event in r && r[event] == Handlers(ls, event) + [h]
    ensures forall e :: e != event ==> (e in r <==> e in ls) && (e in ls ==> r[e] == ls[e])
  {
    ls[event := Handlers(ls, event) + [h]]
  }

  /** `off`: remove the first registration of h for that event only. */
  function Off<H(==)>(ls: Listeners<H>, event: string, h: H): (r: Listeners<H>)
    ensures event !in ls ==> r == ls
    ensures event in ls ==> event in r && r[event] == RemoveFirst(ls[event], h)
    ensures forall e :: e != event ==> (e in r <==> e in ls) && (e in ls ==> r[e] == ls[e])
  {
    if event in ls then ls[event := RemoveFirst(ls[event], h)] else ls
  }

  /** `emit`: every handler of the event, in order, with the same arguments. */
  function Emit<H, A>(ls: Listeners<H>, event: string, args: A): (calls: seq<(H, A)>)
    ensures |calls| == |Handlers(ls, event)|
    ensures forall i :: 0 <= i < |calls| ==> calls[i] == (Handlers(ls, event)[i], args)
    ensures event !in ls ==> calls == []
  {
    var hs := Handlers(ls, event);
    seq(|hs|, i requires 0 <= i < |hs| => (hs[i], args))
  }

  /** `removeAllListeners(event?)`: an event name that is missing or empty clears everything. */
  function RemoveAllListeners<H>(ls: Listeners<H>, event: Option<string>): (r: Listeners<H>)
    ensures event.None? || event.value == "" ==> r == map[]
    ensures event.Some? && event.value != "" ==>
      event.value !in r && forall e :: e != event.value ==> (e in r <==> e in ls) && (e in ls ==> r[e] == ls[e])
  {
    if event.Some? && event.value != "" then ls - {event.value} else map[]
  }

  /** How many of the calls go to h. */
  function CallsTo<H(==), A>(calls: seq<(H, A)>, h: H): nat {
    if |calls| == 0 then 0 else (if calls[0].0 == h then 1 else 0) + CallsTo(calls[1..], h)
  }

  function Count<H(==)>(s: seq<H>, h: H): nat {
    multiset(s)[h]
  }

  /** Emitting calls each handler as many times as it is registered. */
  lemma {:induction false} CallsMatchRegistrations<H, A>(ls: Listeners<H>, event: string, args: A, h: H)
    ensures CallsTo(Emit(ls, event, args), h) == Count(Handlers(ls, event), h)
  {
    var hs := Handlers(ls, event);
    CallsOfList(hs, args, h);
  }

  lemma {:induction false} CallsOfList<H, A>(hs: seq<H>, args: A, h: H)
    ensures CallsTo(seq(|hs|, i requires 0 <= i < |hs| => (hs[i], args)), h) == multiset(hs)[h]
  {
    var calls := seq(|hs|, i requires 0 <= i < |hs| => (hs[i], args));
    if |hs| > 0 {
      var tail := hs[1..];
      CallsOfList(tail, args, h);
      assert calls[1..] == seq(|tail|, i requires 0 <= i < |tail| => (tail[i], args));
      assert hs == [hs[0]] + tail;
      assert multiset(hs) == multiset{hs[0]} + multiset(tail);
    }
  }

  /** A handler registered twice is called twice; after one `off`, once. */
  lemma TwiceOnOnceOff<H, A>(ls: Listeners<H>, event: string, h: H, args: A)
    requires h !in Handlers(ls, event)
    ensures CallsTo(Emit(On(On(ls, event, h), event, h), event, args), h) == 2
    ensures CallsTo(Emit(Off(On(On(ls, event, h), event, h), event, h), event, args), h) == 1
  {
    var hs := Handlers(ls, event);
    var twice := On(On(ls, event, h), event, h);
    assert Handlers(twice, event) == hs + [h] + [h];
    CallsMatchRegistrations(twice, event, args, h);
    assert multiset(hs + [h] + [h])[h] == 2 by {
      assert multiset(hs + [h] + [h]) == multiset(hs) + multiset{h, h};
    }
    var once := Off(twice, event, h);
    CallsMatchRegistrations(once, event, args, h);
  }

  /** `on` then `off` of a new handler restores the event's list. */
  lemma OnThenOff<H>(ls: Listeners<H>, event: string, h: H)
    requires h !in Handlers(ls, event)
    ensures Handlers(Off(On(ls, event, h), event, h), event) == Handlers(ls, event)
  {
    var hs := Handlers(ls, event);
    assert forall k :: 0 <= k < |hs| ==> (hs + [h])[k] != h;
    assert (hs + [h])[|hs|] == h;
    assert IndexOf(hs + [h], h) == |hs|;
    assert (hs + [h])[..|hs|] == hs;
  }
}

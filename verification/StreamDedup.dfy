/** Turning streaming events into new text for the user (agent_server/main.py). */
module StreamDedup {
  import opened Text

  datatype Event = Event(text: string, partial: bool)

  datatype State = State(cur: string, sawPartial: bool, full: string)

  const START := State("", false, "")

  function Step(st: State, e: Event): (State, string) {
    if e.text == "" then (st, "")
    else if e.partial then
      var delta := if StartsWith(e.text, st.cur) then e.text[|st.cur|..] else e.text;
      (State(st.cur + delta, true, st.full + delta), delta)
    else
      var delta :=
        if !st.sawPartial then e.text
        else if StartsWith(e.text, st.cur) then e.text[|st.cur|..]
        else "";
      (State("", false, st.full + delta), delta)
  }

  /** All events so far: the state and everything sent to the user. */
  function Feed(st: State, events: seq<Event>): (State, string)
    decreases events
  {
    if events == [] then (st, "")
    else
      var (st1, sent) := Step(st, events[0]);
      var (st2, rest) := Feed(st1, events[1..]);
      (st2, sent + rest)
  }

  /** The new text of an event: what a text adds to what was streamed of the message; all of a partial text that does
      not extend it, nothing of a final one; and all of a final text before which nothing was streamed. */
  ghost predicate IsNew(st: State, e: Event, delta: string) {
    if e.text == "" then delta == ""
    else if !e.partial && !st.sawPartial then delta == e.text
    else if st.cur <= e.text then e.text == st.cur + delta
    else delta == if e.partial then e.text else ""
  }

  /** What was streamed grows with the partial texts and is forgotten behind the final one. */
  ghost predicate Continued(st: State, e: Event, delta: string, st': State) {
    && st'.full == st.full + delta
    && if e.text == "" then st'.cur == st.cur && st'.sawPartial == st.sawPartial
       else if e.partial then st'.cur == st.cur + delta && st'.sawPartial
       else st'.cur == "" && !st'.sawPartial
  }

  lemma StepIs(st: State, e: Event)
    ensures IsNew(st, e, Step(st, e).1) && Continued(st, e, Step(st, e).1, Step(st, e).0)
  {
    assert st.full + "" == st.full;
  }

  class Dedup {
    var cur: string
    var sawPartial: bool
    var full: string

    function Abs(): State
      reads this
    {
      State(cur, sawPartial, full)
    }

    constructor ()
      ensures Abs() == START
    {
      cur, sawPartial, full := "", false, "";
    }

    method FeedEvent(e: Event) returns (delta: string)
      modifies this
      ensures (Abs(), delta) == Step(old(Abs()), e)
      ensures IsNew(old(Abs()), e, delta) && Continued(old(Abs()), e, delta, Abs())
    {
      StepIs(Abs(), e);
      var text := e.text;
      if text == "" {
        return "";
      }
      if e.partial {
        sawPartial := true;
        delta := if StartsWith(text, cur) then text[|cur|..] else text;
        cur := cur + delta;
      } else {
        if !sawPartial {
          delta := text;
        } else if StartsWith(text, cur) {
          delta := text[|cur|..];
        } else {
          delta := "";
        }
        cur, sawPartial := "", false;
      }
      full := full + delta;
    }
  }

  // ---- how a sender may deliver one message ----

  /** A message sent as growing cumulative texts, as pure deltas, or as its final text only. */
  datatype Message =
    | Cumulative(partials: seq<string>, final: string)
    | Deltas(partials: seq<string>, final: string)
    | FinalOnly(final: string)

  /** What the receiver has after some partial texts. */
  function Received(m: Message, n: nat): string
    requires m.FinalOnly? || n <= |m.partials|
  {
    match m
    case Cumulative(partials, _) => if n == 0 then "" else partials[n - 1]
    case Deltas(partials, _) => Concat(partials[..n])
    case FinalOnly(_) => ""
  }

  /** The `i`-th partial text as its kind of sender sends it: a cumulative text grows, a delta does not begin with the
      text so far. */
  predicate Continues(m: Message, i: nat)
    requires !m.FinalOnly? && i < |m.partials|
  {
    if m.Cumulative? then StartsWith(m.partials[i], Received(m, i))
    else Received(m, i) != "" && m.partials[i] != "" ==> !StartsWith(m.partials[i], Received(m, i))
  }

  /** And the final text extends what was streamed. */
  ghost predicate WellSent(m: Message) {
    m.FinalOnly? ||
    ((forall i :: 0 <= i < |m.partials| ==> Continues(m, i)) && StartsWith(m.final, Received(m, |m.partials|)))
  }

  function Partials(texts: seq<string>): seq<Event> {
    if texts == [] then [] else [Event(texts[0], true)] + Partials(texts[1..])
  }

  function Wire(m: Message): seq<Event> {
    (if m.FinalOnly? then [] else Partials(m.partials)) + [Event(m.final, false)]
  }

  function WireAll(ms: seq<Message>): seq<Event> {
    if ms == [] then [] else Wire(ms[0]) + WireAll(ms[1..])
  }

  function Finals(ms: seq<Message>): seq<string> {
    if ms == [] then [] else [ms[0].final] + Finals(ms[1..])
  }

  /** The events that carry text. */
  function WithText(events: seq<Event>): seq<Event> {
    if events == [] then []
    else (if events[0].text == "" then [] else [events[0]]) + WithText(events[1..])
  }

  // ---- empty events do nothing ----

  lemma {:induction false} EmptyEventsIgnored(st: State, events: seq<Event>)
    ensures Feed(st, WithText(events)) == Feed(st, events)
    decreases events
  {
    if events != [] {
      var st1 := Step(st, events[0]).0;
      EmptyEventsIgnored(st1, events[1..]);
      var rest := WithText(events[1..]);
      if events[0].text != "" {
        assert ([events[0]] + rest)[1..] == rest;
      } else {
        assert [] + rest == rest;
        assert "" + Feed(st1, events[1..]).1 == Feed(st1, events[1..]).1;
      }
    }
  }

  lemma {:induction false} FeedAppend(st: State, a: seq<Event>, b: seq<Event>)
    ensures var (st1, sent) := Feed(st, a);
            var (st2, rest) := Feed(st1, b);
            Feed(st, a + b) == (st2, sent + rest)
    decreases a
  {
    if a == [] {
      assert a + b == b;
      assert "" + Feed(st, b).1 == Feed(st, b).1;
    } else {
      assert (a + b)[1..] == a[1..] + b;
      var (st1, sent) := Step(st, a[0]);
      FeedAppend(st1, a[1..], b);
      var (st2, mid) := Feed(st1, a[1..]);
      Associative(sent, mid, Feed(st2, b).1);
    }
  }

  // ---- one message ----

  /** Between messages nothing is pending. */
  ghost predicate AtBoundary(st: State) {
    st.cur == "" && !st.sawPartial
  }

  /** Sending some text keeps the record of everything sent. */
  lemma {:induction false} FullIsEverythingSent(st: State, events: seq<Event>)
    ensures Feed(st, events).0.full == st.full + Feed(st, events).1
    decreases events
  {
    if events == [] {
      assert st.full + "" == st.full;
    } else {
      var (st1, sent) := Step(st, events[0]);
      FullIsEverythingSent(st1, events[1..]);
      Associative(st.full, sent, Feed(st1, events[1..]).1);
    }
  }

  lemma PartialAccumulates(st: State, text: string)
    requires st.cur != "" ==> st.sawPartial
    ensures var (st1, sent) := Step(st, Event(text, true));
            && st1.cur == st.cur + sent
            && (st1.cur != "" ==> st1.sawPartial)
            && (st1.sawPartial ==> st.sawPartial || st1.cur != "")
            && (st.cur != "" ==> st1.cur != "")
  {
    assert st.cur + "" == st.cur;
  }

  /** After any partial texts, in any mixture, what was sent for this message is `cur`. */
  lemma {:induction false} PartialsAccumulate(st: State, texts: seq<string>)
    requires st.cur != "" ==> st.sawPartial
    ensures var (st1, sent) := Feed(st, Partials(texts));
            && st1.cur == st.cur + sent
            && (st1.cur != "" ==> st1.sawPartial)
            && (st1.sawPartial ==> st.sawPartial || st1.cur != "")
    decreases texts
  {
    if texts == [] {
      assert st.cur + "" == st.cur;
    } else {
      assert Partials(texts)[1..] == Partials(texts[1..]);
      var (st1, sent) := Step(st, Event(texts[0], true));
      PartialAccumulates(st, texts[0]);
      PartialsAccumulate(st1, texts[1..]);
      Associative(st.cur, sent, Feed(st1, Partials(texts[1..])).1);
    }
  }

  /** One more event at the end. */
  lemma FeedSnoc(st: State, events: seq<Event>, e: Event)
    ensures var (mid, sent) := Feed(st, events);
            var (st1, delta) := Step(mid, e);
            Feed(st, events + [e]) == (st1, sent + delta)
  {
    var mid := Feed(st, events).0;
    FeedAppend(st, events, [e]);
    assert [e][1..] == [] && Feed(mid, [e]) == (Step(mid, e).0, Step(mid, e).1 + "");
    assert Step(mid, e).1 + "" == Step(mid, e).1;
  }

  /** What the final event adds to the `streamed` text. */
  lemma FinalCompletes(mid: State, streamed: string, final: string)
    requires mid.cur == streamed && final != "" && (mid.sawPartial <==> streamed != "")
    ensures var (st1, delta) := Step(mid, Event(final, false));
            AtBoundary(st1) && streamed + delta == if streamed <= final then final else streamed
  {
    assert streamed + "" == streamed;
    assert StartsWith(final, streamed) ==> streamed + final[|streamed|..] == final;
    assert "" + final == final;
  }

  /** The exact condition, for any partial texts whatever: a non-empty message comes out as its final text precisely
      when that text begins with what was already sent for it; otherwise nothing more is sent. */
  lemma {:induction false} MessageIntactIff(st: State, texts: seq<string>, final: string)
    requires AtBoundary(st) && final != ""
    ensures var streamed := Feed(st, Partials(texts)).0.cur;
            var (st1, sent) := Feed(st, Partials(texts) + [Event(final, false)]);
            && AtBoundary(st1) && (sent == final <==> streamed <= final)
            && (!(streamed <= final) ==> sent == streamed)
  {
    PartialsAccumulate(st, texts);
    FeedSnoc(st, Partials(texts), Event(final, false));
    var (mid, sent) := Feed(st, Partials(texts));
    assert "" + sent == sent;
    FinalCompletes(mid, sent, final);
  }

  /** One partial text of a well-sent message. */
  lemma ReceivedNext(m: Message, n: nat, mid: State)
    requires !m.FinalOnly? && n < |m.partials| && Continues(m, n) && mid.cur == Received(m, n)
    ensures Step(mid, Event(m.partials[n], true)).0.cur == Received(m, n + 1)
  {
    if m.Deltas? {
      assert m.partials[..n + 1] == m.partials[..n] + [m.partials[n]];
      ConcatSnoc(m.partials[..n], m.partials[n]);
      assert Received(m, n) + "" == Received(m, n);
      assert "" + m.partials[n] == m.partials[n];
    }
  }

  lemma FeedPartialsSnoc(st: State, texts: seq<string>, last: string)
    ensures Feed(st, Partials(texts + [last])).0 == Step(Feed(st, Partials(texts)).0, Event(last, true)).0
  {
    PartialsAppend(texts, last);
    FeedSnoc(st, Partials(texts), Event(last, true));
  }

  lemma NothingReceived(st: State, m: Message)
    requires AtBoundary(st) && !m.FinalOnly?
    ensures Feed(st, Partials([])).0.cur == Received(m, 0)
  {
    assert m.partials[..0] == [];
  }

  /** A well-sent message is streamed without repetition or loss. */
  lemma {:induction false} StreamedIsReceived(st: State, m: Message, n: nat)
    requires AtBoundary(st) && WellSent(m) && !m.FinalOnly? && n <= |m.partials|
    ensures Feed(st, Partials(m.partials[..n])).0.cur == Received(m, n)
  {
    if n == 0 {
      NothingReceived(st, m);
      assert m.partials[..n] == [];
    } else {
      var before, last := m.partials[..n - 1], m.partials[n - 1];
      StreamedIsReceived(st, m, n - 1);
      FeedPartialsSnoc(st, before, last);
      assert m.partials[..n] == before + [last];
      ReceivedNext(m, n - 1, Feed(st, Partials(before)).0);
    }
  }

  lemma {:induction false} PartialsAppend(texts: seq<string>, last: string)
    ensures Partials(texts + [last]) == Partials(texts) + [Event(last, true)]
  {
    if texts != [] {
      assert (texts + [last])[1..] == texts[1..] + [last];
      PartialsAppend(texts[1..], last);
    }
  }

  lemma OneMessage(st: State, m: Message)
    requires AtBoundary(st) && WellSent(m)
    ensures var (st1, sent) := Feed(st, Wire(m)); AtBoundary(st1) && sent == m.final
  {
    var texts := if m.FinalOnly? then [] else m.partials;
    assert Wire(m) == Partials(texts) + [Event(m.final, false)];
    if !m.FinalOnly? {
      StreamedIsReceived(st, m, |texts|);
      assert texts[..|texts|] == texts;
    }
    if m.final != "" {
      MessageIntactIff(st, texts, m.final);
    } else {
      PartialsAccumulate(st, texts);
      FeedSnoc(st, Partials(texts), Event("", false));
      assert "" + Feed(st, Partials(texts)).1 == Feed(st, Partials(texts)).1;
    }
  }

  // ---- a whole turn ----

  lemma {:induction false} AllMessages(st: State, ms: seq<Message>)
    requires AtBoundary(st) && forall m :: m in ms ==> WellSent(m)
    ensures Feed(st, WireAll(ms)).1 == Concat(Finals(ms))
    decreases ms
  {
    if ms != [] {
      OneMessage(st, ms[0]);
      var (st1, sent) := Feed(st, Wire(ms[0]));
      AllMessages(st1, ms[1..]);
      FeedAppend(st, Wire(ms[0]), WireAll(ms[1..]));
      assert Finals(ms)[1..] == Finals(ms[1..]);
    }
  }

  /** For any well-sent messages, with empty events anywhere, the user receives the concatenated final texts and
      `full` records the same. */
  lemma NothingRepeatedOrLost(ms: seq<Message>, events: seq<Event>)
    requires forall m :: m in ms ==> WellSent(m)
    requires WithText(events) == WithText(WireAll(ms))
    ensures Feed(START, events).1 == Concat(Finals(ms)) == Feed(START, events).0.full
  {
    AllMessages(START, ms);
    EmptyEventsIgnored(START, events);
    EmptyEventsIgnored(START, WireAll(ms));
    FullIsEverythingSent(START, events);
    assert START.full + Feed(START, events).1 == Feed(START, events).1;
  }
}

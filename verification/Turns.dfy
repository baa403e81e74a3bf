/** One turn of the device loop is a run of the link's steps: what is proved of every run of
    the link therefore holds of the loop, which reads several frames in one turn. */
module TurnRefinement {
  import opened Common
  import opened Protocol
  import opened Stick
  import opened UsbTransmit
  import opened Link
  import opened Recovery

  /** What the lines of the transmit queue say. */
  function Said(queue: seq<Line>): seq<Result<DeviceMessage>> {
    seq(|queue|, i requires 0 <= i < |queue| => Decoded(queue[i]))
  }

  function OfferHellos(queue: seq<Result<DeviceMessage>>, hellos: seq<Option<Nonce>>): seq<Result<DeviceMessage>>
  {
    if hellos == [] then queue
    else Offered(OfferHellos(queue, hellos[..|hellos| - 1]), Ok(Hello(VERSION, hellos[|hellos| - 1])), false)
  }

  lemma OfferOneMore(queue: seq<Result<DeviceMessage>>, hellos: seq<Option<Nonce>>, more: seq<Option<Nonce>>)
    requires |more| <= 1
    ensures OfferHellos(queue, hellos + more) == OfferHellos(OfferHellos(queue, hellos), more)
  {
    if more == [] {
      assert hellos + more == hellos;
    } else {
      assert (hellos + more)[..|hellos|] == hellos && more[..0] == [];
    }
  }

  lemma MovedSays(l: World, o: Outcome)
    requires |o.hellos| <= 1 && (o.request ==> o.hellos == [])
    ensures var m := Moved(l, o);
      && m.stick == o.state && m.toStick == l.toStick && m.toHost == l.toHost && m.host == l.host
      && m.handed == l.handed && m.opening == l.opening && m.used == l.used
      && Said(m.queue) == var said := OfferHellos(Said(l.queue), o.hellos);
                          if o.request then Offered(said, Ok(ShutdownRequested), true) else said
  {
    assert o.hellos != [] ==> o.hellos[..0] == [];
  }

  /** Everything a run of the link shows of one turn. */
  ghost predicate Shows(l: World, k: nat, o: Outcome, w: World)
    requires k <= |l.toStick|
  {
    && w.stick == o.state && w.toStick == l.toStick[k..] && w.toHost == l.toHost && w.host == l.host
    && w.handed == l.handed && w.opening == l.opening && w.used == l.used
    && Said(w.queue) == var said := OfferHellos(Said(l.queue), o.hellos);
                        if o.request then Offered(said, Ok(ShutdownRequested), true) else said
  }

  lemma {:induction false} TakesAreReceiving(l: World, now: int, k: nat)
    requires k <= |l.toStick|
    ensures Shows(l, k, ReceiveAll(l.stick, now, l.toStick[..k]), Repeat(l, Take(now), k))
  {
    if k > 0 {
      TakesAreReceiving(l, now, k - 1);
      var t, before := Repeat(l, Take(now), k - 1), ReceiveAll(l.stick, now, l.toStick[..k - 1]);
      assert l.toStick[..k][..k - 1] == l.toStick[..k - 1];
      assert t.toStick[0] == l.toStick[k - 1] && t.toStick[1..] == l.toStick[k..];
      var o := Receive(t.stick, now, t.toStick[0]);
      ReceiveSaysLittle(t.stick, now, t.toStick[0]);
      MovedSays(t.(toStick := t.toStick[1..]), o);
      OfferOneMore(Said(l.queue), before.hellos, o.hellos);
    }
  }

  lemma ReceiveSaysLittle(s: State, now: int, frame: HostFrame)
    ensures |Receive(s, now, frame).hellos| <= 1 && !Receive(s, now, frame).request
  {
  }

  /** The first half of a turn: the periodic Hello and the frames that have arrived. */
  function Listened(l: World, i: Input): World {
    Repeat(Next(l, Tick(i.now)), Take(i.now), |i.inbox|)
  }

  /** The second half: the age check, the button and the shutdown timers. */
  function Acted(l: World, i: Input): World {
    Next(Next(Next(l, Grow(i.now)), Push(i.now, i.action, i.held)), Time(i.now, i.usb))
  }

  lemma ListenedShows(l: World, i: Input)
    requires |i.inbox| <= |l.toStick| && i.inbox == l.toStick[..|i.inbox|]
    ensures var greeted := HelloTick(l.stick, i.now);
      var received := ReceiveAll(greeted.state, i.now, i.inbox);
      Shows(l, |i.inbox|, Outcome(received.state, greeted.hellos + received.hellos, false), Listened(l, i))
  {
    var a, greeted := Next(l, Tick(i.now)), HelloTick(l.stick, i.now);
    MovedSays(l, greeted);
    assert a.toStick == l.toStick;
    TakesAreReceiving(a, i.now, |i.inbox|);
    OfferGreetingFirst(Said(l.queue), greeted.hellos, ReceiveAll(a.stick, i.now, i.inbox).hellos);
  }

  lemma ActedShows(l: World, i: Input)
    ensures var pressed := Press(Age(l.stick, i.now), i.now, i.action, i.held);
      Shows(l, 0, Outcome(ShutdownTimers(pressed.state, i.now, i.usb), [], pressed.request), Acted(l, i))
  {
    var c := Next(l, Grow(i.now));
    var pressed := Press(c.stick, i.now, i.action, i.held);
    MovedSays(c, pressed);
    assert l.toStick[0..] == l.toStick;
  }

  /** The steps of a turn up to the button: Hello, the frames, the age check. */
  function ListenActs(i: Input): seq<Act> {
    [Tick(i.now)] + seq(|i.inbox|, _ => Take(i.now)) + [Grow(i.now)]
  }

  /** The steps of a turn: behind those the button and the timers. */
  function TurnActs(i: Input): seq<Act> {
    ListenActs(i) + [Push(i.now, i.action, i.held)] + [Time(i.now, i.usb)]
  }

  lemma ListenActsRun(l: World, i: Input)
    ensures Exec(l, ListenActs(i)) == Next(Listened(l, i), Grow(i.now))
  {
    var taking := seq(|i.inbox|, _ => Take(i.now));
    assert [Tick(i.now)][..0] == [];
    RepeatIsARun(Next(l, Tick(i.now)), Take(i.now), |i.inbox|);
    ExecConcat(l, [Tick(i.now)], taking);
    ExecAppend(l, [Tick(i.now)] + taking, Grow(i.now));
  }

  lemma TurnActsRun(l: World, i: Input)
    ensures Exec(l, TurnActs(i)) == Acted(Listened(l, i), i)
  {
    ListenActsRun(l, i);
    ExecAppend(l, ListenActs(i), Push(i.now, i.action, i.held));
    ExecAppend(l, ListenActs(i) + [Push(i.now, i.action, i.held)], Time(i.now, i.usb));
  }

  /** The state in which the button is looked at, and the opening it is then. */
  lemma ListenActsShow(l: World, i: Input)
    requires |i.inbox| <= |l.toStick| && i.inbox == l.toStick[..|i.inbox|]
    ensures var w := Exec(l, ListenActs(i));
      && w.stick == Age(ReceiveAll(HelloTick(l.stick, i.now).state, i.now, i.inbox).state, i.now)
      && w.opening == l.opening
  {
    ListenActsRun(l, i);
    ListenedShows(l, i);
  }

  /** The whole turn, over the frames that have arrived: it takes exactly those off its line,
      queues exactly its Hellos and its request, and touches nothing else. */
  lemma TurnIsARun(l: World, i: Input)
    requires |i.inbox| <= |l.toStick| && i.inbox == l.toStick[..|i.inbox|]
    ensures Shows(l, |i.inbox|, Turn(l.stick, i), Exec(l, TurnActs(i)))
  {
    ListenedShows(l, i);
    var listened := Listened(l, i);
    ActedShows(listened, i);
    assert listened.toStick[0..] == listened.toStick;
    TurnActsRun(l, i);
  }

  lemma {:induction false} OfferGreetingFirst(queue: seq<Result<DeviceMessage>>, a: seq<Option<Nonce>>,
                                              b: seq<Option<Nonce>>)
    ensures OfferHellos(queue, a + b) == OfferHellos(OfferHellos(queue, a), b)
    decreases |b|
  {
    if b == [] {
      assert a + b == a;
    } else {
      assert (a + b)[..|a + b| - 1] == a + b[..|b| - 1];
      OfferGreetingFirst(queue, a, b[..|b| - 1]);
    }
  }
}

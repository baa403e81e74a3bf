/** What short presses of the button do: turn the pages, open and leave the about screen, or
    only cancel the shutdown animation. */
module Clicks {
  import opened Common
  import opened Protocol
  import opened Stick
  import Reception

  /** Turns without frames, in which the button is at most clicked. */
  ghost predicate ButtonOnly(inputs: seq<Input>) {
    forall k :: 0 <= k < |inputs| ==>
      inputs[k].inbox == [] && inputs[k].held == None && (inputs[k].action == None || IsClick(inputs[k]))
  }

  predicate IsClick(i: Input) {
    i.action == Some(NextScreen)
  }

  /** When the button was clicked. */
  function ClickTimes(inputs: seq<Input>): seq<int>
  {
    if inputs == [] then []
    else
      var last := inputs[|inputs| - 1];
      ClickTimes(inputs[..|inputs| - 1]) + if IsClick(last) then [last.now] else []
  }

  /** Every click comes more than 200 milliseconds behind the one before it. */
  ghost predicate Slow(since: Option<int>, times: seq<int>)
  {
    && (since.Some? && times != [] ==> times[0] - since.value > 200)
    && forall k :: 0 < k < |times| ==> times[k] - times[k - 1] > 200
  }

  /** What the button moves, and the number of pages it moves among. */
  datatype Pages = Pages(page: nat, about: bool, lastClick: Option<int>, animating: bool, count: nat)

  function Shown(s: State): Pages {
    Pages(s.page, s.showAbout, s.lastClick, s.animating, PageCount(s))
  }

  lemma PressShows(s: State, t: State, now: int, action: Option<ButtonAction>)
    requires Shown(s) == Shown(t)
    ensures Shown(Press(s, now, action, None).state) == Shown(Press(t, now, action, None).state)
  {
  }

  /** A turn without frames: the button moves the pages, and the rest of the turn does not. */
  lemma QuietTurn(s: State, i: Input)
    requires i.inbox == [] && i.held == None
    ensures Shown(Turn(s, i).state) == Shown(Press(s, i.now, i.action, None).state)
  {
    var aged := Age(HelloTick(s, i.now).state, i.now);
    assert Shown(aged) == Shown(s);
    PressShows(s, aged, i.now, i.action);
    TimersTouchOnlyTheShutdownScreen(Press(aged, i.now, i.action, i.held).state, i.now, i.usb);
  }

  /** One more page, around the manifest's pages. */
  function Onwards(page: nat, count: nat): nat {
    if page + 1 < count then page + 1 else 0
  }

  /** What a click at this time makes of the screens. */
  function Clicked(p: Pages, now: int): Pages
  {
    if p.animating then p.(animating := false)
    else if p.about then p.(about := false, lastClick := None)
    else if p.lastClick.Some? && now - p.lastClick.value <= 200 then p.(about := true, lastClick := None)
    else p.(page := Onwards(p.page, p.count), lastClick := Some(now))
  }

  /** A click that ends the shutdown animation does nothing else; one on the about screen leaves it;
      one within 200 milliseconds of another opens it; and any other turns the page. */
  lemma OneClick(s: State, i: Input)
    requires i.inbox == [] && i.held == None && IsClick(i) && s.page < PageCount(s)
    ensures Shown(Turn(s, i).state) == Clicked(Shown(s), i.now)
  {
    QuietTurn(s, i);
    NextPage(s.page, PageCount(s));
  }

  lemma NextPage(page: nat, count: nat)
    requires page < count
    ensures (page + 1) % count == Onwards(page, count)
  {
    if page + 1 < count {
      Reception.SmallRemainder(page + 1, count);
    } else {
      assert page + 1 == count;
    }
  }

  /** A turn without an action leaves the screens as they are, but for the animation. */
  lemma NoClick(s: State, i: Input)
    requires i.inbox == [] && i.held == None && i.action == None
    ensures Shown(Turn(s, i).state) == Shown(s).(animating := false)
  {
    QuietTurn(s, i);
  }

  /** Over every run of clicks that are not double clicks, each turns to the next page, around the
      manifest's pages, so that as many clicks as there are pages lead back. */
  lemma SlowClicksTurnPages(s: State, inputs: seq<Input>)
    requires ButtonOnly(inputs) && Slow(s.lastClick, ClickTimes(inputs))
    requires s.page < PageCount(s) && !s.showAbout && !s.animating
    ensures Shown(Turns(s, inputs)) == PagesOn(Shown(s), ClickTimes(inputs))
  {
    SlowClicksLeadForward(s, inputs);
    ForwardIsPagesOn(Shown(s), ClickTimes(inputs));
  }

  function PagesOn(p: Pages, clicks: seq<int>): Pages
    requires 0 < p.count
  {
    p.(page := (p.page + |clicks|) % p.count, lastClick := LastOf(p.lastClick, clicks))
  }

  lemma ForwardIsPagesOn(p: Pages, clicks: seq<int>)
    requires p.page < p.count
    ensures Forward(p, |clicks|, LastOf(p.lastClick, clicks)) == PagesOn(p, clicks)
  {
    ForthIsTheRemainder(p, |clicks|);
  }

  lemma {:induction false} SlowClicksLeadForward(s: State, inputs: seq<Input>)
    requires ButtonOnly(inputs) && Slow(s.lastClick, ClickTimes(inputs))
    requires s.page < PageCount(s) && !s.showAbout && !s.animating
    ensures Shown(Turns(s, inputs))
         == Forward(Shown(s), |ClickTimes(inputs)|, LastOf(s.lastClick, ClickTimes(inputs)))
    decreases |inputs|
  {
    if inputs != [] {
      var init, i := inputs[..|inputs| - 1], inputs[|inputs| - 1];
      SlowBefore(s.lastClick, inputs);
      SlowClicksLeadForward(s, init);
      OneTurnForward(Shown(s), Turns(s, init), i, |ClickTimes(init)|, LastOf(s.lastClick, ClickTimes(init)));
      OneClickMore(s.lastClick, inputs);
    }
  }

  lemma OneClickMore(since: Option<int>, inputs: seq<Input>)
    requires inputs != []
    ensures var init, i := inputs[..|inputs| - 1], inputs[|inputs| - 1]; var times := ClickTimes(inputs);
      && |times| == |ClickTimes(init)| + (if IsClick(i) then 1 else 0)
      && LastOf(since, times) == if IsClick(i) then Some(i.now) else LastOf(since, ClickTimes(init))
  {
  }

  lemma OneTurnForward(p: Pages, t: State, i: Input, n: nat, last: Option<int>)
    requires p.page < p.count && !p.about && !p.animating && Shown(t) == Forward(p, n, last)
    requires i.inbox == [] && i.held == None && (i.action == None || IsClick(i))
    requires IsClick(i) && last.Some? ==> i.now - last.value > 200
    ensures Shown(Turn(t, i).state) == if IsClick(i) then Forward(p, n + 1, Some(i.now)) else Forward(p, n, last)
  {
    ForthIsAPage(p, n);
    if IsClick(i) {
      OneClick(t, i);
    } else {
      NoClick(t, i);
    }
  }

  /** So many clicks onwards. */
  function Forth(p: Pages, n: nat): nat {
    if n == 0 then p.page else Onwards(Forth(p, n - 1), p.count)
  }

  function Forward(p: Pages, n: nat, lastClick: Option<int>): Pages {
    p.(page := Forth(p, n), lastClick := lastClick)
  }

  lemma {:induction false} ForthIsAPage(p: Pages, n: nat)
    requires p.page < p.count
    ensures Forth(p, n) < p.count
  {
    if n > 0 {
      ForthIsAPage(p, n - 1);
    }
  }

  lemma {:induction false} ForthIsTheRemainder(p: Pages, n: nat)
    requires p.page < p.count
    ensures Forth(p, n) == (p.page + n) % p.count
  {
    if n == 0 {
      Reception.SmallRemainder(p.page, p.count);
    } else {
      ForthIsTheRemainder(p, n - 1);
      OnePageMore(p.page + n - 1, p.count);
    }
  }

  function LastOf(since: Option<int>, times: seq<int>): Option<int> {
    if times == [] then since else Some(times[|times| - 1])
  }

  lemma SlowBefore(since: Option<int>, inputs: seq<Input>)
    requires inputs != [] && Slow(since, ClickTimes(inputs))
    ensures var init, i := inputs[..|inputs| - 1], inputs[|inputs| - 1];
      && Slow(since, ClickTimes(init))
      && (IsClick(i) ==> var last := LastOf(since, ClickTimes(init)); last.None? || i.now - last.value > 200)
  {
    var times := ClickTimes(inputs[..|inputs| - 1]);
    assert forall k :: 0 <= k < |times| ==> ClickTimes(inputs)[k] == times[k];
    if IsClick(inputs[|inputs| - 1]) {
      assert ClickTimes(inputs)[|times|] == inputs[|inputs| - 1].now;
    }
  }

  lemma OnePageMore(n: nat, count: nat)
    requires 0 < count
    ensures Onwards(n % count, count) == (n + 1) % count
  {
    var q, r := n / count, n % count;
    if r + 1 < count {
      QuotientIs(n + 1, count, q, r + 1);
    } else {
      assert n + 1 == (q + 1) * count;
      QuotientIs(n + 1, count, q + 1, 0);
    }
  }

  lemma QuotientIs(n: nat, d: nat, q: nat, r: nat)
    requires n == q * d + r && r < d
    ensures n % d == r
  {
    FarMultiples(n / d - q, d);
    assert (n / d - q) * d == r - n % d;
  }

  lemma FarMultiples(m: int, d: int)
    requires 0 < d
    ensures m != 0 ==> m * d >= d || m * d <= -d
  {
    if m >= 1 {
      assert (m - 1) * d >= 0;
    } else if m <= -1 {
      assert (-1 - m) * d >= 0;
    }
  }

  lemma ThreeTurns(s: State, inputs: seq<Input>)
    requires |inputs| == 3
    ensures var a := Turn(s, inputs[0]).state; var b := Turn(a, inputs[1]).state;
      Turns(s, inputs[..2]) == b && Turns(s, inputs) == Turn(b, inputs[2]).state
  {
    assert inputs[..2][..1] == [inputs[0]] && [inputs[0]][..0] == [];
    assert Turns(s, [inputs[0]]) == Turn(s, inputs[0]).state;
  }

  /** A double click opens the about screen, one page on; the next click leaves it for that page,
      and is not half of another double click. */
  lemma DoubleClick(s: State, inputs: seq<Input>)
    requires |inputs| == 3 && ButtonOnly(inputs) && forall k :: 0 <= k < 3 ==> IsClick(inputs[k])
    requires s.page < PageCount(s) && !s.showAbout && !s.animating
    requires s.lastClick.Some? ==> inputs[0].now - s.lastClick.value > 200
    requires inputs[1].now - inputs[0].now <= 200
    ensures Shown(Turns(s, inputs[..2]))
         == Shown(s).(page := Onwards(s.page, PageCount(s)), about := true, lastClick := None)
    ensures Shown(Turns(s, inputs)) == Shown(s).(page := Onwards(s.page, PageCount(s)), lastClick := None)
  {
    ThreeTurns(s, inputs);
    var a := Turn(s, inputs[0]).state;
    OneClick(s, inputs[0]);
    OneClick(a, inputs[1]);
    OneClick(Turn(a, inputs[1]).state, inputs[2]);
  }

  /** Exactly while the button is held long enough in a session, the shutdown animation runs. */
  lemma AnimationRuns(s: State, i: Input)
    requires i.inbox == [] && i.action == None
    ensures Turn(s, i).state.animating
       <==> Age(s, i.now).mode == Connected && i.held.Some? && i.held.value >= s.display.shutdownAnimationDelayMs
  {
    var greeted := HelloTick(s, i.now).state;
    TimersTouchOnlyTheShutdownScreen(Press(Age(greeted, i.now), i.now, i.action, i.held).state, i.now, i.usb);
  }
}

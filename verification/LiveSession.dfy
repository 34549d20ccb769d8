/** The renderer object and the receiver object in one session: after any events, the fields of the receiver are the screen that
    the theorems about sessions speak of. */
module LiveSession {
  import opened Strings
  import opened Terminal
  import opened Renderer
  import opened Redraw
  import opened Session
  import opened PtyScreens

  /** The bytes of every event fit in one read. */
  predicate Fits(m: Metrics, sys: System, events: seq<Event>)
    requires Shaped(sys.screen) && Playable(m, sys, events)
    decreases |events|
  {
    events != [] ==>
      Utf16Length(Output(sys, events[0])) <= CAPTURE_LIMIT && Fits(m, Play(m, sys, events[0]), events[1..])
  }

  function SystemOf(renderer: DifferentialRenderer, receiver: PtyScreen): System
    reads renderer, receiver
  {
    System(receiver.View(), renderer.previous)
  }

  /** Both objects between two events. */
  ghost predicate Live(renderer: DifferentialRenderer, receiver: PtyScreen)
    reads renderer, receiver
  {
    && receiver.Valid() && receiver.pending == ""
    && 1 <= renderer.width == receiver.cols && renderer.height == receiver.rows
    && Ready(receiver.m, SystemOf(renderer, receiver))
  }

  lemma FeedIsDrain(m: Metrics, s: Screen, text: string)
    requires Shaped(s)
    ensures Terminal.Feed(m, Receiver(s, ""), text) == if Utf16Length(text) > CAPTURE_LIMIT then None else Some(Drain(m, s, text))
  {
    hide Drain, Utf16Length, Shaped;
    assert "" + text == text;
  }

  lemma NothingFed(m: Metrics, s: Screen)
    requires Shaped(s)
    ensures Drain(m, s, "") == Receiver(s, "") && Utf16Length("") <= CAPTURE_LIMIT
  {
  }

  /** What an event writes moves the receiver where the event does; a title or shape already set need not be written again. */
  lemma WrittenPlays(m: Metrics, sys: System, event: Event, written: string)
    requires Ready(m, sys) && Allowed(m, sys, event)
    requires written == Output(sys, event) || (written == "" && (event.Title? || event.CursorShape?))
    ensures var s := Met(m, sys, event);
            && (Utf16Length(Output(sys, event)) <= CAPTURE_LIMIT ==> Terminal.Feed(m, Receiver(s, ""), written).Some?)
            && (Terminal.Feed(m, Receiver(s, ""), written).Some? ==>
                  Terminal.Feed(m, Receiver(s, ""), written) == Some(Receiver(Play(m, sys, event).screen, "")))
  {
    hide Drain, Shaped, Output, Met, Allowed, Ready, Play, Utf16Length, Terminal.Feed;
    ReadyIsShaped(m, sys);
    EventKeepsReady(m, sys, event);
    FeedIsDrain(m, Met(m, sys, event), written);
    NothingFed(m, Met(m, sys, event));
    if event.Title? || event.CursorShape? { QuietEvent(m, sys, event); }
  }

  /** The renderer's half of an event; the receiver takes a new size. */
  method Write(renderer: DifferentialRenderer, receiver: PtyScreen, event: Event) returns (written: string)
    requires Live(renderer, receiver) && (event.Invalidate? ==> event.left.None?)
    requires Allowed(receiver.m, SystemOf(renderer, receiver), event)
    modifies renderer, receiver
    ensures var sys := old(SystemOf(renderer, receiver));
            && receiver.View() == Met(receiver.m, sys, event) && receiver.pending == ""
            && renderer.width == receiver.cols && renderer.height == receiver.rows
            && renderer.previous == Play(receiver.m, sys, event).previous
            && (written == Output(sys, event) || (written == "" && (event.Title? || event.CursorShape?)))
  {
    hide Drain, RowSynced, FrameText, Drawn, RowsShaped, FrameMeasured, ShapeText, TitleText;
    written := "";
    match event {
      case Draw(rows, cursor) => written := renderer.Draw(rows, cursor);
      case Resize(width, height) =>
        receiver.Resize(width, height);
        written := renderer.Resize(width, height);
      case Invalidate(_) => renderer.Invalidate();
      case CursorShape(shape) => written := renderer.SetCursorShape(shape);
      case Title(text) => written := renderer.SetTitle(text);
    }
  }

  lemma SystemIsReady(renderer: DifferentialRenderer, receiver: PtyScreen)
    requires Live(renderer, receiver)
    ensures var sys := SystemOf(renderer, receiver); Ready(receiver.m, sys) && Shaped(sys.screen)
  {
  }

  /** One event: the renderer writes and the receiver reads. */
  method PlayOne(renderer: DifferentialRenderer, receiver: PtyScreen, event: Event) returns (ok: bool)
    requires Live(renderer, receiver) && (event.Invalidate? ==> event.left.None?)
    requires Allowed(receiver.m, SystemOf(renderer, receiver), event)
    modifies renderer, receiver
    ensures var sys := old(SystemOf(renderer, receiver));
            && (ok ==> Live(renderer, receiver) && SystemOf(renderer, receiver) == Play(receiver.m, sys, event))
            && (Utf16Length(Output(sys, event)) <= CAPTURE_LIMIT ==> ok)
  {
    hide Ready, Play, Allowed, Output, Met, Utf16Length, Shaped, Terminal.Feed;
    SystemIsReady(renderer, receiver);
    ghost var m, sys := receiver.m, SystemOf(renderer, receiver);
    EventKeepsReady(m, sys, event);
    PlayedShape(m, sys, event);
    var written := Write(renderer, receiver, event);
    WrittenPlays(m, sys, event, written);
    ok := receiver.Feed(written);
  }

  lemma PlayedShape(m: Metrics, sys: System, event: Event)
    requires Shaped(sys.screen) && Allowed(m, sys, event)
    ensures var s, r := Met(m, sys, event), Play(m, sys, event).screen; r.cols == s.cols && r.rows == s.rows && 2 <= s.cols
  {
    hide Drain, Output;
  }

  /** A whole session of the two objects. It only stops early when the bytes of one event outgrow the capture limit. */
  method PlaySession(renderer: DifferentialRenderer, receiver: PtyScreen, events: seq<Event>) returns (ok: bool)
    requires Live(renderer, receiver) && Playable(receiver.m, SystemOf(renderer, receiver), events)
    requires forall e :: e in events && e.Invalidate? ==> e.left.None?
    modifies renderer, receiver
    ensures var sys := old(SystemOf(renderer, receiver));
            && (ok ==> Live(renderer, receiver) && SystemOf(renderer, receiver) == PlayAll(receiver.m, sys, events))
            && (Fits(receiver.m, sys, events) ==> ok)
  {
    hide Play, Allowed, Output, Utf16Length, Shaped, Ready;
    ghost var m, sys := receiver.m, SystemOf(renderer, receiver);
    assert events[0..] == events;
    SystemIsReady(renderer, receiver);
    for i := 0 to |events|
      invariant Live(renderer, receiver) && Playable(m, SystemOf(renderer, receiver), events[i..])
      invariant PlayAll(m, SystemOf(renderer, receiver), events[i..]) == PlayAll(m, sys, events)
      invariant Fits(m, sys, events) ==> Fits(m, SystemOf(renderer, receiver), events[i..])
    {
      SystemIsReady(renderer, receiver);
      assert events[i..][0] == events[i] && events[i..][1..] == events[i + 1..];
      ok := PlayOne(renderer, receiver, events[i]);
      if !ok { return false; }
    }
    ok := true;
    assert events[|events|..] == [];
  }
}

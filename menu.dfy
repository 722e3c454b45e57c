/// The title and game-over screens (menu.rs): releasing Return moves between
/// the app states, and the prompt text blinks every half second.
module MenuScreen {
  import opened Components
  import opened Timers

  /// The app states of schedule.rs; the game starts in Menu.
  datatype AppState = Menu | InGame | GameOver

  datatype Visibility = Inherited | Visible | Hidden

  /// 0.5 s between two blinks.
  const BlinkInterval: nat := 500_000_000

  /// A blinking text: its visibility and its repeating blink timer.
  datatype Blinking = Blinking(visibility: Visibility, blink: Timer)

  /// `Blink::default`: a visible-by-inheritance text with a fresh timer.
  function NewBlinking(): (b: Blinking)
    ensures b.visibility == Inherited && b.blink.mode == Repeating && b.blink.duration == 500_000_000
    ensures b.blink.elapsed == 0 && !JustFinished(b.blink)
  {
    Blinking(Inherited, NewTimer(BlinkInterval, Repeating))
  }

  /// The menu systems run only on the title and game-over screens.
  predicate MenuActive(state: AppState) {
    state == Menu || state == GameOver
  }

  // ---------------------------------------------------------------------
  // handle_menu_input

  /// The state a released Return asks for, if any.
  function ReturnTarget(state: AppState): (r: Option<AppState>)
    ensures r.Some? <==> MenuActive(state)
    ensures state == Menu ==> r == Some(InGame)
    ensures state == GameOver ==> r == Some(Menu)
  {
    match state
    case Menu => Some(InGame)
    case GameOver => Some(Menu)
    case InGame => None
  }

  /// The pending next state after the released keys are handled: every
  /// released Return sets it to the target of the current state, and other
  /// keys leave it alone.
  function NextState(state: AppState, released: seq<KeyCode>, next: Option<AppState>): Option<AppState> {
    if released == [] then next
    else
      var before := NextState(state, released[..|released| - 1], next);
      if released[|released| - 1] == Return && ReturnTarget(state).Some? then ReturnTarget(state) else before
  }

  /// `handle_menu_input`: `next` is the pending `NextState` resource.
  method HandleMenuInput(state: AppState, released: seq<KeyCode>, next: Option<AppState>) returns (pending: Option<AppState>)
    ensures pending == NextState(state, released, next)
  {
    pending := next;
    for i := 0 to |released|
      invariant pending == NextState(state, released[..i], next)
    {
      assert released[..i + 1][..i] == released[..i];
      var key := released[i];
      if key == Return {
        match state {
          case Menu => pending := Some(InGame);
          case GameOver => pending := Some(Menu);
          case _ =>
        }
      }
    }
    assert released[..|released|] == released;
  }

  /// Releasing Return on the title screen starts the game and on the
  /// game-over screen goes back to the title; Return while playing, or any
  /// release without Return, leaves the pending state as it was.
  lemma {:induction false} ReturnTransitions(state: AppState, released: seq<KeyCode>, next: Option<AppState>)
    ensures Return in released && state == Menu ==> NextState(state, released, next) == Some(InGame)
    ensures Return in released && state == GameOver ==> NextState(state, released, next) == Some(Menu)
    ensures Return !in released || state == InGame ==> NextState(state, released, next) == next
  {
    if released != [] {
      var front := released[..|released| - 1];
      ReturnTransitions(state, front, next);
      assert released == front + [released[|released| - 1]];
    }
  }

  // ---------------------------------------------------------------------
  // blink_text

  /// Hidden text becomes visible and visible text becomes hidden.
  function Toggle(v: Visibility): (r: Visibility)
    ensures r != v
    ensures r == Hidden <==> v != Hidden
  {
    match v
    case Inherited => Hidden
    case Visible => Hidden
    case Hidden => Visible
  }

  /// One blinking text after a frame of `delta` nanoseconds.
  function BlinkStep(b: Blinking, delta: nat): Blinking {
    var ticked := Tick(b.blink, delta);
    Blinking(if JustFinished(ticked) then Toggle(b.visibility) else b.visibility, ticked)
  }

  /// `blink_text` over the blinking texts, updated in place.
  method BlinkText(items: array<Blinking>, delta: nat)
    modifies items
    ensures forall i :: 0 <= i < items.Length ==> items[i] == BlinkStep(old(items[i]), delta)
  {
    for i := 0 to items.Length
      invariant forall j :: 0 <= j < i ==> items[j] == BlinkStep(old(items[j]), delta)
      invariant forall j :: i <= j < items.Length ==> items[j] == old(items[j])
    {
      var blink := Tick(items[i].blink, delta);
      var visibility := items[i].visibility;
      if JustFinished(blink) {
        visibility := match visibility
          case Inherited => Hidden
          case Visible => Hidden
          case Hidden => Visible;
      }
      items[i] := Blinking(visibility, blink);
    }
  }

  /// Two toggles return visible and hidden text to where it was, and
  /// inherited text to visible.
  lemma ToggleTwice(v: Visibility)
    ensures Toggle(Toggle(v)) == if v == Hidden then Hidden else Visible
  {
  }

  /// With the 0.5 s repeating timer a text toggles exactly in the frames that
  /// carry the timer past its period, and keeps its visibility otherwise.
  lemma BlinksOncePerPeriod(b: Blinking, delta: nat)
    requires b.blink.mode == Repeating && b.blink.duration == BlinkInterval
    ensures BlinkStep(b, delta).visibility ==
      if b.blink.elapsed + delta >= BlinkInterval then Toggle(b.visibility) else b.visibility
    ensures BlinkStep(b, delta).blink.elapsed == (b.blink.elapsed + delta) % BlinkInterval
  {
    RepeatingJustFinished(b.blink, delta);
  }

  // ---------------------------------------------------------------------
  // The menu plugin's Update systems

  /// `handle_menu_input` and `blink_text` in one frame, run only on the
  /// title and game-over screens.
  method MenuFrame(state: AppState, released: seq<KeyCode>, next: Option<AppState>, items: array<Blinking>, delta: nat)
    returns (pending: Option<AppState>)
    modifies items
    ensures pending == if MenuActive(state) then NextState(state, released, next) else next
    ensures forall i :: 0 <= i < items.Length ==>
      items[i] == if MenuActive(state) then BlinkStep(old(items[i]), delta) else old(items[i])
  {
    if state == Menu || state == GameOver {
      pending := HandleMenuInput(state, released, next);
      BlinkText(items, delta);
    } else {
      pending := next;
    }
  }
}

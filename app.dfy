/** The component's state and its event handlers: the mount effect, the
    window click handler that refocuses the search input after a debounce,
    the search input's change handler, the clipboard copy with its
    notification, and the browser's timer queue that runs the callbacks. */
module AppComponent {
  import opened Strings
  import opened Records
  import opened Table

  datatype Option<T> = None | Some(value: T)

  /** The handle `setTimeout` returns. */
  type TimerId = nat

  /** Delay of the refocus after a click, in milliseconds. */
  const FocusDelay: nat := 500
  /** Delay of the notification's hide after a successful copy, in milliseconds. */
  const HideDelay: nat := 2000

  /** What a pending `setTimeout` callback does when it runs. */
  datatype Callback =
    | FocusInput        // focus the search input, if it still exists
    | HideNotification  // hide the notification banner

  datatype Timer = Timer(due: nat, callback: Callback)

  class App {
    /** `data`: the dataset, replaced wholesale by a successful fetch. */
    var data: seq<Record>
    /** `searchTerm`: the search input's value. */
    var searchTerm: string
    /** `showNotification`: whether the "Text Copied!" banner is shown. */
    var showNotification: bool
    /** `clickTimer`: the handle of the last focus timer a click scheduled.
        The window listener is the closure of the first render, so this is
        one variable shared by every click. */
    var clickTimer: Option<TimerId>
    /** `inputRef.current != null`. */
    var inputAttached: bool
    /** `handleClick` is registered on `window`. */
    var listening: bool
    /** How many times `inputRef.current.focus()` has been called. */
    var focusCount: nat
    /** What the system clipboard holds after the last successful write. */
    var clipboard: Option<Cell>

    /** The browser's event loop: the time of the last event, the pending
        timers, and the next handle `setTimeout` gives out. */
    var now: nat
    var timers: map<TimerId, Timer>
    var nextTimerId: TimerId

    /** The time of the last click the listener handled. */
    ghost var lastClickAt: nat

    ghost function FocusTimers(): set<TimerId>
      reads this
    {
      set id | id in timers && timers[id].callback == FocusInput
    }

    ghost function HideTimers(): set<TimerId>
      reads this
    {
      set id | id in timers && timers[id].callback == HideNotification
    }

    /** The invariant of the component and its timers: handles are never
        reused; at most one focus timer is pending, it is the one
        `clickTimer` names and it is due 500 ms after the last click; every
        hide timer is due within 2000 ms; a shown notification always has a
        hide timer pending. */
    ghost predicate Valid()
      reads this
    {
      && (forall id | id in timers :: id < nextTimerId && now <= timers[id].due)
      && (clickTimer.Some? ==> clickTimer.value < nextTimerId)
      && (clickTimer.Some? && clickTimer.value in timers ==> timers[clickTimer.value].callback == FocusInput)
      && FocusTimers() <= (if clickTimer.Some? then {clickTimer.value} else {})
      && (forall id | id in FocusTimers() :: timers[id].due == lastClickAt + FocusDelay)
      && (forall id | id in HideTimers() :: timers[id].due <= now + HideDelay)
      && (showNotification ==> HideTimers() != {})
    }

    /** The event loop may deliver an event at time `t`: time does not go
        back and every timer due before `t` has already run. */
    predicate CanRunAt(t: nat)
      reads this
    {
      now <= t && forall id | id in timers :: t <= timers[id].due
    }

    /** What the table is computed from on every render. */
    function FilteredView(): Filtered
      reads this
    {
      FilteredData(data, searchTerm)
    }

    /** The first render, before the mount effect runs. */
    constructor ()
      ensures Valid()
      ensures data == [] && searchTerm == "" && !showNotification
      ensures clickTimer == None && inputAttached && !listening && focusCount == 0 && clipboard == None
      ensures now == 0 && timers == map[]
    {
      data := [];
      searchTerm := "";
      showNotification := false;
      clickTimer := None;
      inputAttached := true;
      listening := false;
      focusCount := 0;
      clipboard := None;
      now := 0;
      timers := map[];
      nextTimerId := 1;
      lastClickAt := 0;
    }

    /** The mount effect: clears the search term, focuses the input and
        registers the window click listener. */
    method Mount()
      requires Valid() && inputAttached
      modifies this
      ensures Valid()
      ensures searchTerm == "" && listening && focusCount == old(focusCount) + 1
      ensures data == old(data) && showNotification == old(showNotification)
      ensures clickTimer == old(clickTimer) && inputAttached && clipboard == old(clipboard)
      ensures now == old(now) && timers == old(timers) && nextTimerId == old(nextTimerId)
    {
      searchTerm := "";
      focusCount := focusCount + 1;
      listening := true;
    }

    /** Teardown: the window listener is removed and the input ref becomes
        null; pending timers are left to run. */
    method Unmount()
      requires Valid()
      modifies this
      ensures Valid()
      ensures !listening && !inputAttached
      ensures data == old(data) && searchTerm == old(searchTerm) && showNotification == old(showNotification)
      ensures clickTimer == old(clickTimer) && focusCount == old(focusCount) && clipboard == old(clipboard)
      ensures now == old(now) && timers == old(timers) && nextTimerId == old(nextTimerId)
    {
      listening := false;
      inputAttached := false;
    }

    /** Completion of the fetch: the parsed dataset, or `None` when the
        request or the parse failed, which leaves the dataset as it was.
        A dataset with a record whose name is not a string makes the next
        render throw; with no error boundary the component is torn down:
        the listener is removed and the input ref becomes null. */
    method FetchCompleted(result: Option<seq<Record>>)
      requires Valid()
      modifies this
      ensures Valid()
      ensures data == if result.Some? then result.value else old(data)
      ensures FilteredView().TypeError? <==> !AllNamed(data)
      ensures result.Some? && !AllNamed(result.value) ==> !listening && !inputAttached
      ensures !(result.Some? && !AllNamed(result.value)) ==> listening == old(listening) && inputAttached == old(inputAttached)
      ensures searchTerm == old(searchTerm) && showNotification == old(showNotification)
      ensures clickTimer == old(clickTimer) && focusCount == old(focusCount) && clipboard == old(clipboard)
      ensures now == old(now) && timers == old(timers) && nextTimerId == old(nextTimerId)
    {
      if result.Some? {
        data := result.value;
        if !AllNamed(data) {
          listening := false;
          inputAttached := false;
        }
      }
    }

    /** `handleSearch`: the new term is taken verbatim; an empty term shows
        the whole dataset again. */
    method Search(value: string)
      requires Valid()
      modifies this
      ensures Valid()
      ensures searchTerm == value
      ensures value == "" && AllNamed(data) ==> FilteredView() == View(data)
      ensures data == old(data) && showNotification == old(showNotification)
      ensures clickTimer == old(clickTimer) && listening == old(listening) && inputAttached == old(inputAttached)
      ensures focusCount == old(focusCount) && clipboard == old(clipboard)
      ensures now == old(now) && timers == old(timers) && nextTimerId == old(nextTimerId)
    {
      searchTerm := value;
      if value == "" && AllNamed(data) {
        FilterEmptyTerm(data);
      }
    }

    /** `handleClick` at time `t`: cancels the pending focus timer and
        schedules a new one 500 ms later. Without the listener (before mount,
        after teardown) a click does nothing. */
    method Click(t: nat)
      requires Valid() && CanRunAt(t)
      modifies this
      ensures Valid()
      ensures !old(listening) ==> now == old(now) && timers == old(timers) && clickTimer == old(clickTimer) && nextTimerId == old(nextTimerId)
      ensures old(listening) ==>
        && now == t
        && clickTimer == Some(old(nextTimerId))
        && nextTimerId == old(nextTimerId) + 1
        && timers == (if old(clickTimer).Some? then old(timers) - {old(clickTimer).value} else old(timers))
                       [old(nextTimerId) := Timer(t + FocusDelay, FocusInput)]
        && FocusTimers() == {old(nextTimerId)}
        && lastClickAt == t
      ensures HideTimers() == old(HideTimers())
      ensures data == old(data) && searchTerm == old(searchTerm) && showNotification == old(showNotification)
      ensures listening == old(listening) && inputAttached == old(inputAttached)
      ensures focusCount == old(focusCount) && clipboard == old(clipboard)
    {
      if listening {
        var remaining := if clickTimer.Some? then timers - {clickTimer.value} else timers;
        var id := nextTimerId;
        ghost var hides := HideTimers();
        now := t;
        timers := remaining[id := Timer(t + FocusDelay, FocusInput)];
        nextTimerId := nextTimerId + 1;
        clickTimer := Some(id);
        lastClickAt := t;
        assert FocusTimers() == {id};
        assert HideTimers() == hides;
      }
    }

    /** A click on the body cell in row `row`, column `col` of the rendered
        table at time `t`: the value handed to `copyToClipboard` is the
        value the cell displays, and the click also reaches the window
        listener. */
    method CellClicked(row: nat, col: nat, t: nat) returns (content: Cell)
      requires Valid() && CanRunAt(t)
      requires FilteredView().View? && row < |FilteredView().records| && col < |Headers|
      modifies this
      ensures Valid()
      ensures FilteredView() == old(FilteredView())
      ensures content == Render(FilteredView().records).body[row][col]
      ensures !old(listening) ==> now == old(now) && timers == old(timers) && clickTimer == old(clickTimer) && nextTimerId == old(nextTimerId)
      ensures old(listening) ==>
        && now == t
        && clickTimer == Some(old(nextTimerId))
        && nextTimerId == old(nextTimerId) + 1
        && timers == (if old(clickTimer).Some? then old(timers) - {old(clickTimer).value} else old(timers))
                       [old(nextTimerId) := Timer(t + FocusDelay, FocusInput)]
        && FocusTimers() == {old(nextTimerId)}
        && lastClickAt == t
      ensures HideTimers() == old(HideTimers())
      ensures data == old(data) && searchTerm == old(searchTerm) && showNotification == old(showNotification)
      ensures listening == old(listening) && inputAttached == old(inputAttached)
      ensures focusCount == old(focusCount) && clipboard == old(clipboard)
    {
      content := CopiedValue(FilteredView().records, row, col);
      Click(t);
    }

    /** The clipboard write started by `copyToClipboard(content)` settles at
        time `t`. On success the banner is shown and a new hide timer is
        scheduled 2000 ms later; earlier hide timers stay pending. On failure
        nothing changes. */
    method CopyResolved(t: nat, content: Cell, written: bool)
      requires Valid() && CanRunAt(t)
      modifies this
      ensures Valid()
      ensures !written ==> unchanged(this)
      ensures written ==>
        && now == t
        && showNotification
        && clipboard == Some(content)
        && nextTimerId == old(nextTimerId) + 1
        && timers == old(timers)[old(nextTimerId) := Timer(t + HideDelay, HideNotification)]
        && HideTimers() == old(HideTimers()) + {old(nextTimerId)}
        && FocusTimers() == old(FocusTimers())
      ensures data == old(data) && searchTerm == old(searchTerm) && clickTimer == old(clickTimer)
      ensures listening == old(listening) && inputAttached == old(inputAttached) && focusCount == old(focusCount)
    {
      if written {
        var id := nextTimerId;
        ghost var hides, focuses := HideTimers(), FocusTimers();
        now := t;
        clipboard := Some(content);
        showNotification := true;
        timers := timers[id := Timer(t + HideDelay, HideNotification)];
        nextTimerId := nextTimerId + 1;
        assert HideTimers() == hides + {id};
        assert FocusTimers() == focuses;
      }
    }

    /** The event loop runs the pending timer `id`, which is due no later
        than any other pending timer. A focus timer focuses the input only
        if the input still exists; a hide timer hides the banner, whichever
        copy scheduled it. */
    method FireTimer(id: TimerId)
      requires Valid() && id in timers
      requires forall other | other in timers :: timers[id].due <= timers[other].due
      modifies this
      ensures Valid()
      ensures now == old(timers[id].due) && timers == old(timers) - {id}
      ensures old(timers[id].callback) == FocusInput ==>
        && now == lastClickAt + FocusDelay
        && focusCount == old(focusCount) + (if inputAttached then 1 else 0)
        && showNotification == old(showNotification)
        && FocusTimers() == {}
      ensures old(timers[id].callback) == HideNotification ==>
        && !showNotification
        && focusCount == old(focusCount)
        && HideTimers() == old(HideTimers()) - {id}
      ensures data == old(data) && searchTerm == old(searchTerm) && clickTimer == old(clickTimer)
      ensures listening == old(listening) && inputAttached == old(inputAttached)
      ensures clipboard == old(clipboard) && nextTimerId == old(nextTimerId) && lastClickAt == old(lastClickAt)
    {
      var timer := timers[id];
      ghost var hides, focuses := HideTimers(), FocusTimers();
      now := timer.due;
      timers := timers - {id};
      match timer.callback
      case FocusInput =>
        assert id in focuses;
        assert FocusTimers() == {};
        assert HideTimers() == hides;
        if inputAttached {
          focusCount := focusCount + 1;
        }
      case HideNotification =>
        assert HideTimers() == hides - {id};
        assert FocusTimers() == focuses;
        showNotification := false;
    }
  }

  /** Three clicks 200 ms apart: the first two focus timers are cancelled and
      the input is focused once, 500 ms after the last click. */
  method ClickBurstFocusesOnce() returns (focuses: nat, focusedAt: nat, pending: nat)
    ensures focuses == 1 && focusedAt == 900 && pending == 0
  {
    var app := new App();
    app.Mount();
    var before := app.focusCount;
    app.Click(0);
    app.Click(200);
    app.Click(400);
    var id := app.clickTimer.value;
    assert app.timers == map[id := Timer(900, FocusInput)];
    app.FireTimer(id);
    focuses := app.focusCount - before;
    focusedAt := app.now;
    pending := |app.timers|;
  }

  /** After teardown a pending focus timer still runs, and does nothing. */
  method FocusAfterTeardownIsHarmless() returns (focuses: nat)
    ensures focuses == 0
  {
    var app := new App();
    app.Mount();
    app.Click(100);
    app.Unmount();
    var before := app.focusCount;
    app.FireTimer(app.clickTimer.value);
    focuses := app.focusCount - before;
  }

  /** A fetched record without a name makes the render throw and tears the
      component down: a later click schedules nothing. */
  method NamelessRecordTearsDown() returns (listens: bool, attached: bool, pending: nat)
    ensures !listens && !attached && pending == 0
  {
    var app := new App();
    app.Mount();
    app.FetchCompleted(Some([map["id" := Num(1.0)]]));
    app.Click(10);
    listens := app.listening;
    attached := app.inputAttached;
    pending := |app.timers|;
  }

  /** Two successful copies 1500 ms apart: the first copy's hide timer is
      not cancelled and hides the banner at 2000 ms, only 500 ms after the
      second copy, while the second hide timer is still pending. */
  method EarlierHideClearsLaterCopy() returns (shownAfterSecond: bool, shownAfterFirstHide: bool, hiddenAt: nat, stillPending: nat)
    ensures shownAfterSecond && !shownAfterFirstHide && hiddenAt == 2000 && stillPending == 1
  {
    var app := new App();
    app.Mount();
    var first := app.nextTimerId;
    app.CopyResolved(0, Undefined, true);
    var second := app.nextTimerId;
    app.CopyResolved(1500, Undefined, true);
    shownAfterSecond := app.showNotification;
    assert app.timers == map[first := Timer(2000, HideNotification), second := Timer(3500, HideNotification)];
    app.FireTimer(first);
    shownAfterFirstHide := app.showNotification;
    hiddenAt := app.now;
    stillPending := |app.timers|;
  }
}

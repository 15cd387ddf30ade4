/** What each input makes of a recording, by when its key went down: the log of the hotkey machine read
    off the events of a run. */
module HotkeyTimes {
  import opened Basics
  import opened Hotkey

  ghost predicate IsRun(x: Setup, states: seq<World>, run: seq<Happening>) {
    && |states| == |run| + 1 && (exists grabs :: states[0] == Initial(x, grabs))
    && forall i :: 0 <= i < |run| ==> Possible(x, states[i], run[i]) && states[i + 1] == Next(x, states[i], run[i])
  }

  lemma {:induction false} RunIsSound(x: Setup, states: seq<World>, run: seq<Happening>, n: nat)
    requires IsRun(x, states, run) && n <= |run|
    ensures MachineInv(x, states[n])
  {
    if n > 0 {
      RunIsSound(x, states, run, n - 1);
      StepKeeps(x, states[n - 1], run[n - 1]);
    }
  }

  predicate PressesHotkey(x: Setup, h: Happening) {
    h.Input? && h.e.KeyPress? && h.e.detail == x.keycode
  }

  predicate ReleasesHotkey(x: Setup, h: Happening) {
    h.Input? && h.e.KeyRelease? && h.e.detail == x.keycode
  }

  predicate PressesEscape(x: Setup, h: Happening) {
    h.Input? && h.e.KeyPress? && h.e.detail == x.escKeycode && h.e.detail != x.keycode
  }

  /** The press at `i` began the recording that is still under way at `n`. */
  ghost predicate RecordsSince(x: Setup, states: seq<World>, run: seq<Happening>, i: nat, n: nat)
    requires IsRun(x, states, run)
  {
    && i < n <= |run| && PressesHotkey(x, run[i]) && states[i].phase.Idle?
    && forall h :: i < h <= n ==> states[h].phase.Recording?
  }

  lemma PressIsRemembered(x: Setup, w: World, h: Happening)
    requires MachineInv(x, w) && Possible(x, w, h) && Next(x, w, h).phase.Recording?
    ensures if w.phase.Recording? then Next(x, w, h).pressTs == w.pressTs
            else PressesHotkey(x, h) && Next(x, w, h).pressTs == h.now
  {
  }

  lemma {:induction false} RecordingHasPress(x: Setup, states: seq<World>, run: seq<Happening>, n: nat)
    returns (i: nat)
    requires IsRun(x, states, run) && n <= |run| && states[n].phase.Recording?
    ensures RecordsSince(x, states, run, i, n) && states[n].pressTs == run[i].now
  {
    assert n > 0;
    RunIsSound(x, states, run, n - 1);
    assert Possible(x, states[n - 1], run[n - 1]) && states[n] == Next(x, states[n - 1], run[n - 1]);
    PressIsRemembered(x, states[n - 1], run[n - 1]);
    if states[n - 1].phase.Recording? {
      i := RecordingHasPress(x, states, run, n - 1);
    } else {
      i := n - 1;
    }
  }

  lemma OnePressOnly(x: Setup, states: seq<World>, run: seq<Happening>, i: nat, j: nat, n: nat)
    requires IsRun(x, states, run) && RecordsSince(x, states, run, i, n) && RecordsSince(x, states, run, j, n)
    ensures i == j
  {
  }

  /** The two entries of a recording that is stopped. */
  function StoppedFor(mode: Mode, reason: Reason): seq<Entry> {
    [Entry(Processing, mode, reason), Entry(Idle, NoMode, Done)]
  }

  /** Releasing the key within three tenths of a second of the press that began the recording turns it
      into a toggled one, once; any other release ends it. */
  lemma ReleaseDecidesByTime(x: Setup, states: seq<World>, run: seq<Happening>, i: nat, n: nat)
    requires IsRun(x, states, run) && RecordsSince(x, states, run, i, n) && n < |run| && ReleasesHotkey(x, run[n])
    ensures states[n + 1].log == states[n].log +
              if states[n].mode == Ptt && run[n].now - run[i].now < 0.3 then [Entry(Recording, Toggle, Tapped)]
              else StoppedFor(states[n].mode, Released)
  {
    var j := RecordingHasPress(x, states, run, n);
    OnePressOnly(x, states, run, i, j, n);
    assert Possible(x, states[n], run[n]) && states[n + 1] == Next(x, states[n], run[n]);
  }

  /** What anything but a release of the hotkey adds to the log. */
  function Entries(x: Setup, phase: Phase, mode: Mode, escGrabbed: bool, h: Happening): seq<Entry> {
    if h.Timeout? then StoppedFor(mode, LimitReached)
    else if PressesHotkey(x, h) && phase.Idle? then [Entry(Recording, Ptt, Pressed)]
    else if PressesHotkey(x, h) && phase.Recording? && mode.Toggle? then StoppedFor(mode, ToggledOff)
    else if PressesEscape(x, h) && escGrabbed then [Entry(Idle, NoMode, Cancelled)]
    else []
  }

  lemma OtherInputsDecideLog(x: Setup, states: seq<World>, run: seq<Happening>, n: nat)
    requires IsRun(x, states, run) && n < |run|
    requires !(ReleasesHotkey(x, run[n]) && states[n].phase.Recording?)
    ensures states[n + 1].log
         == states[n].log + Entries(x, states[n].phase, states[n].mode, states[n].escGrabbed, run[n])
  {
    RunIsSound(x, states, run, n);
    assert Possible(x, states[n], run[n]) && states[n + 1] == Next(x, states[n], run[n]);
  }

  /** Escape is grabbed when a recording begins if nobody else holds any of its combinations, and tried
      again when the recording becomes a toggled one. */
  lemma EscapeIsTried(x: Setup, states: seq<World>, run: seq<Happening>, n: nat)
    requires IsRun(x, states, run) && n < |run| && states[n].phase.Idle? && PressesHotkey(x, run[n])
    ensures states[n + 1].escGrabbed <==> Free(states[n].grabs, x.me, EscCombos(x))
    ensures states[n + 1].escGrabbed ==> EscCombos(x) <= HeldBy(states[n + 1].grabs, x.me)
  {
    RunIsSound(x, states, run, n);
    assert Possible(x, states[n], run[n]) && states[n + 1] == Next(x, states[n], run[n]);
  }

  lemma EscapeIsTriedAgain(x: Setup, states: seq<World>, run: seq<Happening>, n: nat)
    requires IsRun(x, states, run) && n < |run| && states[n].mode.Ptt? && states[n + 1].mode.Toggle?
    ensures states[n + 1].escGrabbed <==> states[n].escGrabbed || Free(states[n].grabs, x.me, EscCombos(x))
  {
    RunIsSound(x, states, run, n);
    assert Possible(x, states[n], run[n]) && states[n + 1] == Next(x, states[n], run[n]);
  }
}

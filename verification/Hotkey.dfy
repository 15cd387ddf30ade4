/** The global hotkey (`X11Keys`, `PttMachine`, `HotkeySpike`): key grabs on the X server, the
    push-to-talk machine, and the autorepeat filter over batches of X events. */
module Hotkey {
  import opened Basics

  /** A modifier mask, as the set of its bits. */
  type Mask = set<nat>
  datatype Combo = Combo(keycode: nat, mask: Mask)
  /** The passive grabs the X server holds, each with the client that owns it. */
  type Grabs = map<Combo, nat>

  const LOCK_BIT: nat := 1

  /** The client, its hotkey, the Escape key, and the bits of Num Lock and Scroll Lock if mapped. */
  datatype Setup = Setup(
    me: nat, keycode: nat, mods: Mask, escKeycode: nat,
    numLock: Option<nat>, scrollLock: Option<nat>)

  // ---- masks ----

  function Locks(x: Setup): seq<nat> {
    [LOCK_BIT] + (if x.numLock.Some? then [x.numLock.value] else [])
    + if x.scrollLock.Some? then [x.scrollLock.value] else []
  }

  function Bits(s: seq<nat>): set<nat> {
    set b | b in s
  }

  /** `base` with any of the lock bits added. */
  ghost predicate IsVariant(x: Setup, base: Mask, v: Mask) {
    base <= v <= base + Bits(Locks(x))
  }

  ghost predicate NoDuplicates<T(!new)>(s: seq<T>) {
    forall i, j :: 0 <= i < j < |s| ==> s[i] != s[j]
  }

  /** Every combination of the lock bits on top of the base, each once. */
  method MaskVariants(x: Setup, base: Mask) returns (uniq: seq<Mask>)
    ensures NoDuplicates(uniq)
    ensures forall v :: v in uniq <==> IsVariant(x, base, v)
  {
    var extra := Locks(x);
    var out := [base];
    assert base + Bits(extra[..0]) == base;
    assert forall v: Mask :: base <= v && v <= base ==> v == base;
    for n := 0 to |extra|
      invariant forall v :: v in out <==> base <= v <= base + Bits(extra[..n])
    {
      var doubled := Doubled(out, extra[n]);
      DoublingAddsBit(base, Bits(extra[..n]), extra[n], out, doubled);
      assert Bits(extra[..n + 1]) == Bits(extra[..n]) + {extra[n]} by {
        assert extra[..n + 1] == extra[..n] + [extra[n]];
      }
      out := doubled;
    }
    assert extra[..|extra|] == extra;
    var seen: set<Mask> := {};
    uniq := [];
    for i := 0 to |out|
      invariant NoDuplicates(uniq)
      invariant forall v :: v in seen <==> v in out[..i]
      invariant forall v :: v in uniq <==> v in out[..i]
    {
      assert out[..i + 1] == out[..i] + [out[i]];
      if out[i] !in seen {
        seen := seen + {out[i]};
        uniq := uniq + [out[i]];
      }
    }
    assert out[..|out|] == out;
  }

  /** `out + [v | m for v in out]`. */
  method Doubled(out: seq<Mask>, bit: nat) returns (r: seq<Mask>)
    ensures forall v :: v in r <==> v in out || exists u :: u in out && v == u + {bit}
  {
    r := out;
    for i := 0 to |out|
      invariant forall v :: v in r <==> v in out || exists u :: u in out[..i] && v == u + {bit}
    {
      assert out[..i + 1] == out[..i] + [out[i]];
      r := r + [out[i] + {bit}];
    }
    assert out[..|out|] == out;
  }

  lemma DoublingAddsBit(base: Mask, locks: set<nat>, bit: nat, out: seq<Mask>, r: seq<Mask>)
    requires forall v :: v in out <==> base <= v <= base + locks
    requires forall v :: v in r <==> v in out || exists u :: u in out && v == u + {bit}
    ensures forall v :: v in r <==> base <= v <= base + (locks + {bit})
  {
    forall v ensures v in r <==> base <= v <= base + (locks + {bit}) {
      if base <= v <= base + (locks + {bit}) {
        if !(v <= base + locks) {
          var u := if bit in base then v else v - {bit};
          assert v == u + {bit} && base <= u <= base + locks;
        }
      }
    }
  }

  // ---- grabs ----

  /** The combinations grabbed for a key: one for each variant of its mask. */
  ghost function Combos(x: Setup, keycode: nat, base: Mask): (r: set<Combo>)
    ensures forall k :: k in r <==> k.keycode == keycode && IsVariant(x, base, k.mask)
  {
    set v: Mask | base <= v && v <= base + Bits(Locks(x)) :: Combo(keycode, v)
  }

  /** No other client holds one of the combinations. */
  predicate Free(grabs: Grabs, me: nat, combos: set<Combo>) {
    forall k :: k in combos && k in grabs ==> grabs[k] == me
  }

  function Grabbed(grabs: Grabs, me: nat, combos: set<Combo>): Grabs {
    grabs + map k | k in combos :: me
  }

  function Ungrabbed(grabs: Grabs, me: nat, combos: set<Combo>): Grabs {
    map k | k in grabs && !(k in combos && grabs[k] == me) :: grabs[k]
  }

  /** The combinations a client holds. */
  function HeldBy(grabs: Grabs, me: nat): set<Combo> {
    set k | k in grabs && grabs[k] == me
  }

  class Server {
    var grabs: Grabs

    constructor ()
      ensures grabs == map[]
    {
      grabs := map[];
    }

    /** A grab is refused (`BadAccess`) when another client holds the same combination. */
    method GrabKey(client: nat, k: Combo) returns (ok: bool)
      modifies this
      ensures ok <==> old(k in grabs ==> grabs[k] == client)
      ensures grabs == if ok then old(grabs)[k := client] else old(grabs)
    {
      ok := k in grabs ==> grabs[k] == client;
      if ok {
        grabs := grabs[k := client];
      }
    }

    method UngrabKey(client: nat, k: Combo)
      modifies this
      ensures grabs == if old(k in grabs && grabs[k] == client) then old(grabs) - {k} else old(grabs)
    {
      if k in grabs && grabs[k] == client {
        grabs := grabs - {k};
      }
    }
  }

  /** All variants, or none: a partial grab is taken back. */
  method Grab(x: Setup, server: Server, keycode: nat, base: Mask) returns (ok: bool)
    modifies server
    ensures ok <==> Free(old(server.grabs), x.me, Combos(x, keycode, base))
    ensures server.grabs == if ok then Grabbed(old(server.grabs), x.me, Combos(x, keycode, base))
                            else Ungrabbed(old(server.grabs), x.me, Combos(x, keycode, base))
  {
    var masks := MaskVariants(x, base);
    ghost var before, combos := server.grabs, Combos(x, keycode, base);
    ghost var got: set<Combo> := {};
    GrabNothing(before, x.me);
    ok := true;
    for i := 0 to |masks|
      invariant server.grabs == Grabbed(before, x.me, got)
      invariant got <= combos && Free(before, x.me, got)
      invariant ok ==> forall m :: m in masks[..i] ==> Combo(keycode, m) in got
      invariant !ok ==> !Free(before, x.me, combos)
    {
      assert masks[..i + 1] == masks[..i] + [masks[i]];
      assert masks[i] in masks;
      var granted := server.GrabKey(x.me, Combo(keycode, masks[i]));
      if granted {
        GrabOneMore(before, x.me, got, Combo(keycode, masks[i]));
        got := got + {Combo(keycode, masks[i])};
      }
      ok := ok && granted;
    }
    assert masks[..|masks|] == masks;
    if ok {
      assert got == combos;
    } else {
      PartialGrabLeaves(before, x.me, got, combos);
      Ungrab(x, server, keycode, base);
    }
  }

  lemma GrabNothing(before: Grabs, me: nat)
    ensures Grabbed(before, me, {}) == before
  {
  }

  lemma GrabOneMore(before: Grabs, me: nat, got: set<Combo>, k: Combo)
    ensures Grabbed(before, me, got)[k := me] == Grabbed(before, me, got + {k})
  {
  }

  lemma PartialGrabLeaves(before: Grabs, me: nat, got: set<Combo>, combos: set<Combo>)
    requires got <= combos && Free(before, me, got)
    ensures Ungrabbed(Grabbed(before, me, got), me, combos) == Ungrabbed(before, me, combos)
  {
  }

  method Ungrab(x: Setup, server: Server, keycode: nat, base: Mask)
    modifies server
    ensures server.grabs == Ungrabbed(old(server.grabs), x.me, Combos(x, keycode, base))
  {
    var masks := MaskVariants(x, base);
    ghost var before := server.grabs;
    for i := 0 to |masks|
      invariant forall k :: k in server.grabs <==>
                  k in before && !(k.keycode == keycode && k.mask in masks[..i] && before[k] == x.me)
      invariant forall k :: k in server.grabs ==> server.grabs[k] == before[k]
    {
      assert masks[..i + 1] == masks[..i] + [masks[i]];
      server.UngrabKey(x.me, Combo(keycode, masks[i]));
    }
    assert masks[..|masks|] == masks;
  }

  /** A refused grab, and a granted one dropped again, leave the server as it was exactly when the
      client held none of the combinations before. */
  lemma GrabIsUndoneIff(grabs: Grabs, me: nat, combos: set<Combo>)
    ensures Ungrabbed(grabs, me, combos) == grabs <==> HeldBy(grabs, me) !! combos
    ensures Free(grabs, me, combos) ==>
              (Ungrabbed(Grabbed(grabs, me, combos), me, combos) == grabs <==> HeldBy(grabs, me) !! combos)
  {
    if k :| k in HeldBy(grabs, me) && k in combos {
      assert k !in Ungrabbed(grabs, me, combos) && k !in Ungrabbed(Grabbed(grabs, me, combos), me, combos);
    }
  }

  /** Two keys share a combination exactly when they are one key and their masks differ in lock bits only. */
  lemma KeysShareIff(x: Setup, keycode1: nat, base1: Mask, keycode2: nat, base2: Mask)
    ensures !(Combos(x, keycode1, base1) !! Combos(x, keycode2, base2))
       <==> keycode1 == keycode2 && base1 <= base2 + Bits(Locks(x)) && base2 <= base1 + Bits(Locks(x))
  {
    if keycode1 == keycode2 && base1 <= base2 + Bits(Locks(x)) && base2 <= base1 + Bits(Locks(x)) {
      var k := Combo(keycode1, base1 + base2);
      assert k in Combos(x, keycode1, base1) && k in Combos(x, keycode2, base2);
    }
  }

  // ---- the machine ----

  datatype Phase = Idle | Recording | Processing
  datatype Mode = NoMode | Ptt | Toggle
  datatype Reason = Pressed | Tapped | Released | ToggledOff | LimitReached | Done | Cancelled
  datatype Entry = Entry(phase: Phase, mode: Mode, reason: Reason)

  /** The machine's fields, the timer, the log, and what the callback owns. */
  datatype World = World(
    phase: Phase, mode: Mode, pressTs: real, timer: bool, log: seq<Entry>,
    escGrabbed: bool, grabs: Grabs)

  const THRESHOLD := 0.3

  ghost function EscCombos(x: Setup): set<Combo> {
    Combos(x, x.escKeycode, {})
  }

  ghost function HotCombos(x: Setup): set<Combo> {
    Combos(x, x.keycode, x.mods)
  }

  /** The callback: Escape is grabbed while recording (tried at each entry) and dropped when idle. */
  ghost function OnState(x: Setup, w: World): World {
    if w.phase.Recording? && !w.escGrabbed then
      if Free(w.grabs, x.me, EscCombos(x)) then w.(grabs := Grabbed(w.grabs, x.me, EscCombos(x)), escGrabbed := true)
      else w.(grabs := Ungrabbed(w.grabs, x.me, EscCombos(x)))
    else if w.phase.Idle? && w.escGrabbed then
      w.(grabs := Ungrabbed(w.grabs, x.me, EscCombos(x)), escGrabbed := false)
    else w
  }

  ghost function Emit(x: Setup, w: World, reason: Reason): World {
    OnState(x, w.(log := w.log + [Entry(w.phase, w.mode, reason)]))
  }

  ghost function Stop(x: Setup, w: World, reason: Reason): World {
    if !w.phase.Recording? then w
    else
      var stopped := Emit(x, w.(timer := false, phase := Processing), reason);
      Emit(x, stopped.(phase := Idle, mode := NoMode), Done)
  }

  ghost function Press(x: Setup, w: World, ts: real): World {
    if w.phase.Idle? then Emit(x, w.(pressTs := ts, phase := Recording, mode := Ptt, timer := true), Pressed)
    else if w.phase.Recording? && w.mode.Toggle? then Stop(x, w, ToggledOff)
    else w
  }

  ghost function Release(x: Setup, w: World, ts: real): World {
    if !w.phase.Recording? then w
    else if ts - w.pressTs < THRESHOLD && w.mode.Ptt? then Emit(x, w.(mode := Toggle), Tapped)
    else Stop(x, w, Released)
  }

  ghost function Cancel(x: Setup, w: World): World {
    if w.phase.Idle? then w else Emit(x, w.(timer := false, phase := Idle, mode := NoMode), Cancelled)
  }

  datatype Event = KeyPress(detail: nat, time: nat) | KeyRelease(detail: nat, time: nat) | OtherEvent

  /** One X event; Escape counts only while grabbed, and the hotkey comes first. */
  ghost function Handle(x: Setup, w: World, e: Event, now: real): World {
    match e
    case OtherEvent => w
    case KeyPress(d, _) =>
      if d == x.keycode then Press(x, w, now)
      else if d == x.escKeycode && w.escGrabbed then Cancel(x, w)
      else w
    case KeyRelease(d, _) => if d == x.keycode then Release(x, w, now) else w
  }

  /** What can happen next: an event, the limit timer, or another client grabbing and ungrabbing. */
  datatype Happening =
    | Input(e: Event, now: real)
    | Timeout
    | OthersGrab(k: Combo, client: nat)
    | OthersUngrab(k: Combo)

  predicate Possible(x: Setup, w: World, h: Happening) {
    match h
    case Input(_, _) => true
    case Timeout => w.timer
    case OthersGrab(k, client) => client != x.me && (k in w.grabs ==> w.grabs[k] == client)
    case OthersUngrab(k) => k in w.grabs && w.grabs[k] != x.me
  }

  ghost function Next(x: Setup, w: World, h: Happening): World {
    match h
    case Input(e, now) => Handle(x, w, e, now)
    case Timeout => Stop(x, w.(timer := false), LimitReached)
    case OthersGrab(k, client) => w.(grabs := w.grabs[k := client])
    case OthersUngrab(k) => w.(grabs := w.grabs - {k})
  }

  ghost function Initial(x: Setup, grabs: Grabs): World {
    World(Idle, NoMode, 0.0, false, [], false,
          if Free(grabs, x.me, HotCombos(x)) then Grabbed(grabs, x.me, HotCombos(x))
          else Ungrabbed(grabs, x.me, HotCombos(x)))
  }

  ghost predicate PossibleRun(x: Setup, w: World, run: seq<Happening>)
    decreases |run|
  {
    run == [] || (Possible(x, w, run[0]) && PossibleRun(x, Next(x, w, run[0]), run[1..]))
  }

  ghost function After(x: Setup, w: World, run: seq<Happening>): World
    decreases |run|
  {
    if run == [] then w else After(x, Next(x, w, run[0]), run[1..])
  }

  // ---- what every run keeps ----

  /** Where a log leaves the machine, if it is one a machine can write: recordings one after the
      other, each begun by a press, perhaps tapped once, and ended once. */
  function Replay(log: seq<Entry>): Option<(Phase, Mode)> {
    if log == [] then Some((Idle, NoMode))
    else
      var before, e := Replay(log[..|log| - 1]), log[|log| - 1];
      if before.None? then None
      else
        match before.value
        case (Idle, NoMode) => if e == Entry(Recording, Ptt, Pressed) then Some((Recording, Ptt)) else None
        case (Recording, m) =>
          if m == Ptt && e == Entry(Recording, Toggle, Tapped) then Some((Recording, Toggle))
          else if e == Entry(Idle, NoMode, Cancelled) then Some((Idle, NoMode))
          else if e.phase == Processing && e.mode == m
            && ((e.reason == ToggledOff && m == Toggle) || e.reason == Released || e.reason == LimitReached)
            then Some((Processing, m))
          else None
        case (Processing, _) => if e == Entry(Idle, NoMode, Done) then Some((Idle, NoMode)) else None
        case _ => None
  }

  /** Begun recordings and ended ones. */
  function Starts(log: seq<Entry>): nat {
    if log == [] then 0 else Starts(log[..|log| - 1]) + if log[|log| - 1].reason == Pressed then 1 else 0
  }

  function Ends(log: seq<Entry>): nat {
    if log == [] then 0
    else Ends(log[..|log| - 1]) + if log[|log| - 1].reason == Cancelled || log[|log| - 1].reason == Done then 1 else 0
  }

  ghost predicate MachineInv(x: Setup, w: World) {
    && Replay(w.log) == Some((w.phase, w.mode))
    && !w.phase.Processing?
    && (w.timer <==> w.phase.Recording?)
    && (w.escGrabbed ==> w.phase.Recording?)
  }

  lemma Logged(log: seq<Entry>, e: Entry)
    ensures (log + [e])[..|log|] == log && (log + [e])[|log|] == e
  {
  }

  lemma StopKeeps(x: Setup, w: World, reason: Reason)
    requires Replay(w.log) == Some((w.phase, w.mode)) && w.phase.Recording?
    requires (reason == ToggledOff && w.mode.Toggle?) || reason == Released || reason == LimitReached
    ensures MachineInv(x, Stop(x, w, reason)) && Stop(x, w, reason).phase.Idle?
  {
    var e1, e2 := Entry(Processing, w.mode, reason), Entry(Idle, NoMode, Done);
    Logged(w.log, e1);
    Logged(w.log + [e1], e2);
    assert Stop(x, w, reason).log == w.log + [e1] + [e2];
  }

  lemma StepKeeps(x: Setup, w: World, h: Happening)
    requires MachineInv(x, w) && Possible(x, w, h)
    ensures MachineInv(x, Next(x, w, h))
  {
    match h
    case Input(e, now) =>
      if e.KeyPress? && e.detail == x.keycode && w.phase.Idle? {
        Logged(w.log, Entry(Recording, Ptt, Pressed));
      } else if e.KeyPress? && e.detail == x.keycode && w.mode.Toggle? {
        StopKeeps(x, w, ToggledOff);
      } else if e.KeyPress? && e.detail != x.keycode {
        Logged(w.log, Entry(Idle, NoMode, Cancelled));
      } else if e.KeyRelease? && w.phase.Recording? {
        Logged(w.log, Entry(Recording, Toggle, Tapped));
        StopKeeps(x, w, Released);
      }
    case Timeout => StopKeeps(x, w.(timer := false), LimitReached);
    case OthersGrab(_, _) =>
    case OthersUngrab(_) =>
  }

  lemma {:induction false} RunKeeps(x: Setup, w: World, run: seq<Happening>)
    requires MachineInv(x, w) && PossibleRun(x, w, run)
    ensures MachineInv(x, After(x, w, run))
    decreases |run|
  {
    if run != [] {
      StepKeeps(x, w, run[0]);
      RunKeeps(x, Next(x, w, run[0]), run[1..]);
    }
  }

  lemma {:induction false} ReplayCounts(log: seq<Entry>)
    requires Replay(log).Some?
    ensures Starts(log) == Ends(log) + if Replay(log).value.0.Idle? then 0 else 1
  {
    if log != [] {
      ReplayCounts(log[..|log| - 1]);
    }
  }

  lemma {:induction false} ReplayPrefix(log: seq<Entry>, n: nat)
    requires Replay(log).Some? && n <= |log|
    ensures Replay(log[..n]).Some?
  {
    if n < |log| {
      ReplayPrefix(log[..|log| - 1], n);
      assert log[..|log| - 1][..n] == log[..n];
    } else {
      assert log[..n] == log;
    }
  }

  /** In every run: the limit timer runs and Escape may be held only while recording, and at every
      point of the log each recording begun so far has ended once, except the one under way. */
  lemma {:induction false} EveryRecordingEndsOnce(x: Setup, grabs: Grabs, run: seq<Happening>, n: nat)
    requires PossibleRun(x, Initial(x, grabs), run)
    ensures var w := After(x, Initial(x, grabs), run);
            && (w.timer <==> w.phase.Recording?) && (w.escGrabbed ==> w.phase.Recording?) && !w.phase.Processing?
            && Replay(w.log) == Some((w.phase, w.mode))
            && Starts(w.log) == Ends(w.log) + (if w.phase.Recording? then 1 else 0)
            && (n <= |w.log| ==> Ends(w.log[..n]) <= Starts(w.log[..n]) <= Ends(w.log[..n]) + 1)
  {
    var w := After(x, Initial(x, grabs), run);
    RunKeeps(x, Initial(x, grabs), run);
    ReplayCounts(w.log);
    if n <= |w.log| {
      ReplayPrefix(w.log, n);
      ReplayCounts(w.log[..n]);
    }
  }

  // ---- what the client holds ----

  ghost predicate HoldsJust(x: Setup, w: World, held: set<Combo>) {
    HeldBy(w.grabs, x.me) == held + if w.escGrabbed then EscCombos(x) else {}
  }

  lemma HeldAfterGrab(grabs: Grabs, me: nat, combos: set<Combo>)
    ensures HeldBy(Grabbed(grabs, me, combos), me) == HeldBy(grabs, me) + combos
    ensures HeldBy(Ungrabbed(grabs, me, combos), me) == HeldBy(grabs, me) - combos
  {
  }

  lemma OnStateHolds(x: Setup, w: World, held: set<Combo>)
    requires HoldsJust(x, w, held) && held !! EscCombos(x)
    ensures HoldsJust(x, OnState(x, w), held)
  {
    HeldAfterGrab(w.grabs, x.me, EscCombos(x));
  }

  lemma StopHolds(x: Setup, w: World, reason: Reason, held: set<Combo>)
    requires HoldsJust(x, w, held) && held !! EscCombos(x)
    ensures HoldsJust(x, Stop(x, w, reason), held)
  {
    if w.phase.Recording? {
      var w1 := w.(timer := false, phase := Processing);
      OnStateHolds(x, w1.(log := w1.log + [Entry(w1.phase, w1.mode, reason)]), held);
      var w2 := Emit(x, w1, reason).(phase := Idle, mode := NoMode);
      OnStateHolds(x, w2.(log := w2.log + [Entry(w2.phase, w2.mode, Done)]), held);
    }
  }

  lemma EmitHolds(x: Setup, w: World, reason: Reason, held: set<Combo>)
    requires HoldsJust(x, w, held) && held !! EscCombos(x)
    ensures HoldsJust(x, Emit(x, w, reason), held)
  {
    OnStateHolds(x, w.(log := w.log + [Entry(w.phase, w.mode, reason)]), held);
  }

  lemma HandleHolds(x: Setup, w: World, e: Event, now: real, held: set<Combo>)
    requires HoldsJust(x, w, held) && held !! EscCombos(x)
    ensures HoldsJust(x, Handle(x, w, e, now), held)
  {
    EmitHolds(x, w.(pressTs := now, phase := Recording, mode := Ptt, timer := true), Pressed, held);
    EmitHolds(x, w.(mode := Toggle), Tapped, held);
    EmitHolds(x, w.(timer := false, phase := Idle, mode := NoMode), Cancelled, held);
    StopHolds(x, w, ToggledOff, held);
    StopHolds(x, w, Released, held);
  }

  lemma NextHolds(x: Setup, w: World, h: Happening, held: set<Combo>)
    requires HoldsJust(x, w, held) && held !! EscCombos(x) && Possible(x, w, h)
    ensures HoldsJust(x, Next(x, w, h), held)
  {
    match h
    case Input(e, now) => HandleHolds(x, w, e, now, held);
    case Timeout => StopHolds(x, w.(timer := false), LimitReached, held);
    case OthersGrab(k, client) =>
      assert HeldBy(w.grabs[k := client], x.me) == HeldBy(w.grabs, x.me);
    case OthersUngrab(k) =>
      assert HeldBy(w.grabs - {k}, x.me) == HeldBy(w.grabs, x.me);
  }

  /** If the keys share no combination, every run leaves exactly what was held at first, with
      Escape's combinations while they are grabbed. */
  lemma {:induction false} RunHolds(x: Setup, w: World, run: seq<Happening>, held: set<Combo>)
    requires HoldsJust(x, w, held) && held !! EscCombos(x) && PossibleRun(x, w, run)
    ensures HoldsJust(x, After(x, w, run), held)
    decreases |run|
  {
    if run != [] {
      NextHolds(x, w, run[0], held);
      RunHolds(x, Next(x, w, run[0]), run[1..], held);
    }
  }

  /** One press held for a second: afterwards no combination of Escape is held. */
  function OneHold(x: Setup): seq<Happening> {
    [Input(KeyPress(x.keycode, 0), 0.0), Input(KeyRelease(x.keycode, 1), 1.0)]
  }

  lemma {:induction false} OneHoldDropsEscape(x: Setup, grabs: Grabs)
    ensures PossibleRun(x, Initial(x, grabs), OneHold(x))
    ensures HeldBy(After(x, Initial(x, grabs), OneHold(x)).grabs, x.me) !! EscCombos(x)
  {
    var w0, run := Initial(x, grabs), OneHold(x);
    var w1 := Next(x, w0, run[0]);
    var w2 := Next(x, w1, run[1]);
    assert run[1..][0] == run[1] && run[1..][1..] == [];
    assert PossibleRun(x, w1, run[1..]);
    assert After(x, w0, run) == After(x, w1, run[1..]) == w2;
    HeldAfterGrab(w0.grabs, x.me, EscCombos(x));
    HeldAfterGrab(w1.grabs, x.me, EscCombos(x));
  }

  /** A granted hotkey stays grabbed in every run exactly when it is not Escape itself, alone or
      with lock bits only: else the end of the first recording drops what they share. */
  lemma {:induction false} HotkeyStaysIff(x: Setup, grabs: Grabs)
    requires Free(grabs, x.me, HotCombos(x)) && HeldBy(grabs, x.me) == {}
    ensures (forall run :: PossibleRun(x, Initial(x, grabs), run) ==>
        HotCombos(x) <= HeldBy(After(x, Initial(x, grabs), run).grabs, x.me))
       <==> !(x.keycode == x.escKeycode && x.mods <= Bits(Locks(x)))
  {
    var w := Initial(x, grabs);
    HeldAfterGrab(grabs, x.me, HotCombos(x));
    KeysShareIff(x, x.keycode, x.mods, x.escKeycode, {});
    if HotCombos(x) !! EscCombos(x) {
      forall run | PossibleRun(x, w, run) ensures HotCombos(x) <= HeldBy(After(x, w, run).grabs, x.me) {
        RunHolds(x, w, run, HotCombos(x));
      }
    } else {
      OneHoldDropsEscape(x, grabs);
      assert !(HotCombos(x) <= HeldBy(After(x, w, OneHold(x)).grabs, x.me));
    }
  }

  // ---- autorepeat ----

  predicate IsRepeat(a: Event, b: Event) {
    a.KeyRelease? && b.KeyPress? && a.detail == b.detail && a.time == b.time
  }

  /** The events left when each release directly followed by its repeated press is skipped. */
  function Filtered(evs: seq<Event>): seq<Event> {
    if evs == [] then []
    else if |evs| >= 2 && IsRepeat(evs[0], evs[1]) then Filtered(evs[2..])
    else [evs[0]] + Filtered(evs[1..])
  }

  /** `noisy` is `clean` with autorepeat pairs put anywhere between its events. */
  ghost predicate Inserted(noisy: seq<Event>, clean: seq<Event>)
    decreases |noisy|
  {
    || (noisy == [] && clean == [])
    || (|noisy| >= 2 && IsRepeat(noisy[0], noisy[1]) && Inserted(noisy[2..], clean))
    || (noisy != [] && clean != [] && noisy[0] == clean[0] && Inserted(noisy[1..], clean[1..]))
  }

  predicate NoRepeats(evs: seq<Event>) {
    forall i :: 0 <= i < |evs| - 1 ==> !IsRepeat(evs[i], evs[i + 1])
  }

  /** A stream that begins with a pair cannot begin with the events of a clean one. */
  lemma PairIsNotClean(noisy: seq<Event>, clean: seq<Event>)
    requires NoRepeats(clean) && |noisy| >= 2 && IsRepeat(noisy[0], noisy[1])
    ensures clean != [] && noisy[0] == clean[0] ==> !Inserted(noisy[1..], clean[1..])
  {
    var rest := noisy[1..];
    assert rest[0] == noisy[1];
    assert |clean| >= 2 && noisy[0] == clean[0] ==> rest[0] != clean[1..][0];
  }

  /** The filter gives back a repeat-free stream exactly when the input is that stream with
      autorepeat pairs inserted. */
  lemma {:induction false} FilterUndoesRepeats(noisy: seq<Event>, clean: seq<Event>)
    requires NoRepeats(clean)
    ensures Filtered(noisy) == clean <==> Inserted(noisy, clean)
    decreases |noisy|
  {
    if |noisy| >= 2 && IsRepeat(noisy[0], noisy[1]) {
      FilterUndoesRepeats(noisy[2..], clean);
      PairIsNotClean(noisy, clean);
    } else if noisy != [] && clean != [] {
      FilterUndoesRepeats(noisy[1..], clean[1..]);
    }
  }

  ghost function HandleAll(x: Setup, w: World, evs: seq<Event>, clock: nat -> real): World {
    if evs == [] then w
    else Handle(x, HandleAll(x, w, evs[..|evs| - 1], clock), evs[|evs| - 1], clock(|evs| - 1))
  }

  function Concat(batches: seq<seq<Event>>): seq<Event> {
    if batches == [] then [] else Concat(batches[..|batches| - 1]) + batches[|batches| - 1]
  }

  /** `handled` is what the first `i` events leave, whatever arrives after `evs`. */
  ghost predicate Consumed(evs: seq<Event>, i: nat, handled: seq<Event>) {
    i <= |evs| && forall more: seq<Event> :: Filtered(evs + more) == handled + Filtered(evs[i..] + more)
  }

  lemma ConsumeNext(evs: seq<Event>, i: nat, handled: seq<Event>)
    requires Consumed(evs, i, handled) && i + 1 < |evs|
    ensures if IsRepeat(evs[i], evs[i + 1]) then Consumed(evs, i + 2, handled)
            else Consumed(evs, i + 1, handled + [evs[i]])
  {
    forall more: seq<Event>
      ensures if IsRepeat(evs[i], evs[i + 1]) then Filtered(evs + more) == handled + Filtered(evs[i + 2..] + more)
              else Filtered(evs + more) == handled + [evs[i]] + Filtered(evs[i + 1..] + more)
    {
      var rest := evs[i..] + more;
      assert rest[0] == evs[i] && rest[1] == evs[i + 1];
      assert rest[1..] == evs[i + 1..] + more && rest[2..] == evs[i + 2..] + more;
    }
  }

  lemma {:induction false} ConsumeLast(evs: seq<Event>, i: nat, handled: seq<Event>)
    requires Consumed(evs, i, handled) && i + 1 == |evs|
    ensures Filtered(evs) == handled + [evs[i]]
  {
    var none: seq<Event> := [];
    assert Filtered(evs + none) == handled + Filtered(evs[i..] + none);
    assert evs + none == evs && evs[i..] + none == [evs[i]];
    FilteredOne(evs[i]);
  }

  lemma FilteredOne(e: Event)
    ensures Filtered([e]) == [e]
  {
    assert [e][1..] == [];
  }

  lemma {:induction false} ConsumeAll(evs: seq<Event>, handled: seq<Event>)
    requires Consumed(evs, |evs|, handled)
    ensures Filtered(evs) == handled
  {
    var none: seq<Event> := [];
    assert Filtered(evs + none) == handled + Filtered(evs[|evs|..] + none);
    assert evs + none == evs && evs[|evs|..] + none == [];
  }

  /** Part-way the rest may still grow; at the end it may not. */
  ghost predicate Progress(evs: seq<Event>, i: nat, handled: seq<Event>) {
    if i < |evs| then Consumed(evs, i, handled) else i == |evs| && handled == Filtered(evs)
  }

  lemma ProgressStep(evs: seq<Event>, i: nat, handled: seq<Event>)
    requires Progress(evs, i, handled) && i < |evs|
    ensures if i + 1 < |evs| && IsRepeat(evs[i], evs[i + 1]) then Progress(evs, i + 2, handled)
            else Progress(evs, i + 1, handled + [evs[i]])
  {
    if i + 1 < |evs| {
      ConsumeNext(evs, i, handled);
      if i + 2 == |evs| && IsRepeat(evs[i], evs[i + 1]) {
        ConsumeAll(evs, handled);
      }
    } else {
      ConsumeLast(evs, i, handled);
    }
  }

  lemma ProgressMore(evs: seq<Event>, i: nat, handled: seq<Event>, later: seq<Event>)
    requires Progress(evs, i, handled) && i < |evs|
    ensures Progress(evs + later, i, handled)
  {
    ConsumeMore(evs, i, handled, later);
  }

  lemma ProgressStart(evs: seq<Event>)
    ensures Progress(evs, 0, [])
  {
    assert evs[0..] == evs;
  }

  lemma ConcatNext(batches: seq<seq<Event>>, n: nat)
    requires n < |batches|
    ensures Concat(batches[..n + 1]) == Concat(batches[..n]) + batches[n]
  {
    assert batches[..n + 1][..n] == batches[..n];
  }

  /** A stream ending in a release of the hotkey was waited on in vain. */
  predicate WaitedOut(x: Setup, evs: seq<Event>, arrivals: seq<seq<Event>>, used: nat)
    requires used <= |arrivals|
  {
    evs != [] && evs[|evs| - 1].KeyRelease? && evs[|evs| - 1].detail == x.keycode
    ==> used == |arrivals| || (used > 0 && arrivals[used - 1] == [])
  }

  lemma ConsumeMore(evs: seq<Event>, i: nat, handled: seq<Event>, later: seq<Event>)
    requires Consumed(evs, i, handled)
    ensures Consumed(evs + later, i, handled)
  {
    forall more: seq<Event> ensures Filtered(evs + later + more) == handled + Filtered((evs + later)[i..] + more) {
      assert evs + later + more == evs + (later + more);
      assert (evs + later)[i..] + more == evs[i..] + (later + more);
    }
  }

  // ---- the spike itself ----

  class HotkeySpike {
    const x: Setup
    const server: Server
    var phase: Phase
    var mode: Mode
    var pressTs: real
    var timer: bool
    var log: seq<Entry>
    var escGrabbed: bool

    ghost function Model(): World
      reads this, server
    {
      World(phase, mode, pressTs, timer, log, escGrabbed, server.grabs)
    }

    constructor (x: Setup, server: Server)
      modifies server
      ensures this.x == x && this.server == server && Model() == Initial(x, old(server.grabs))
    {
      this.x, this.server := x, server;
      phase, mode, pressTs, timer, log, escGrabbed := Idle, NoMode, 0.0, false, [], false;
      new;
      var ok := Grab(x, server, x.keycode, x.mods);
    }

    method EmitEntry(reason: Reason)
      modifies this`log, this`escGrabbed, server
      ensures Model() == Emit(x, old(Model()), reason)
    {
      log := log + [Entry(phase, mode, reason)];
      if phase == Recording && !escGrabbed {
        escGrabbed := Grab(x, server, x.escKeycode, {});
      } else if phase == Idle && escGrabbed {
        Ungrab(x, server, x.escKeycode, {});
        escGrabbed := false;
      }
    }

    method StopRecording(reason: Reason)
      modifies this, server
      ensures Model() == Stop(x, old(Model()), reason)
    {
      if phase != Recording {
        return;
      }
      timer := false;
      phase := Processing;
      EmitEntry(reason);
      phase := Idle;
      mode := NoMode;
      EmitEntry(Done);
    }

    method KeyPressed(ts: real)
      modifies this, server
      ensures Model() == Press(x, old(Model()), ts)
    {
      if phase == Idle {
        pressTs := ts;
        phase := Recording;
        mode := Ptt;
        timer := true;
        EmitEntry(Pressed);
      } else if phase == Recording && mode == Toggle {
        StopRecording(ToggledOff);
      }
    }

    method KeyReleased(ts: real)
      modifies this, server
      ensures Model() == Release(x, old(Model()), ts)
    {
      if phase != Recording {
        return;
      }
      if ts - pressTs < THRESHOLD && mode == Ptt {
        mode := Toggle;
        EmitEntry(Tapped);
        return;
      }
      StopRecording(Released);
    }

    method CancelRecording()
      modifies this, server
      ensures Model() == Cancel(x, old(Model()))
    {
      if phase == Recording || phase == Processing {
        timer := false;
        phase := Idle;
        mode := NoMode;
        EmitEntry(Cancelled);
      }
    }

    /** The single-shot limit timer fires. */
    method LimitTimeout()
      requires timer
      modifies this, server
      ensures Model() == Next(x, old(Model()), Timeout)
    {
      timer := false;
      StopRecording(LimitReached);
    }

    method HandleEvent(e: Event, now: real)
      modifies this, server
      ensures Model() == Handle(x, old(Model()), e, now)
    {
      if e.OtherEvent? {
        return;
      }
      if e.detail == x.keycode {
        if e.KeyPress? {
          KeyPressed(now);
        } else {
          KeyReleased(now);
        }
      } else if e.detail == x.escKeycode && escGrabbed && e.KeyPress? {
        CancelRecording();
      }
    }

    /** Waits for the next read, once the stream has come to an end. */
    method Lookahead(ghost batch: seq<Event>, evs: seq<Event>, i: nat, arrivals: seq<seq<Event>>, used: nat,
                     ghost handled: seq<Event>) returns (more: seq<Event>, now: nat)
      requires i + 1 == |evs| && used <= |arrivals| && evs == batch + Concat(arrivals[..used]) &&
          Progress(evs, i, handled)
      ensures evs <= more && used <= now <= |arrivals| && (more == evs || used < now)
      ensures more == batch + Concat(arrivals[..now]) && Progress(more, i, handled)
      ensures more == evs ==> WaitedOut(x, more, arrivals, now)
    {
      more, now := evs, used;
      if used < |arrivals| {
        ProgressMore(evs, i, handled, arrivals[used]);
        ConcatNext(arrivals, used);
        more, now := evs + arrivals[used], used + 1;
      }
    }

    /** The event after those handled since `start`. */
    method HandleNext(e: Event, count: nat, clock: nat -> real, ghost start: World, ghost handled: seq<Event>)
      requires Model() == HandleAll(x, start, handled, clock) && count == |handled|
      modifies this, server
      ensures Model() == HandleAll(x, start, handled + [e], clock)
    {
      HandleOneMore(x, start, handled, e, clock);
      HandleEvent(e, clock(count));
    }

    /** Handles a batch, waiting for more input when it ends in a release of the hotkey: how the
        stream was cut into reads does not matter as long as the wait brings the next read. */
    method OnXFd(batch: seq<Event>, arrivals: seq<seq<Event>>, clock: nat -> real) returns (used: nat, dropped: nat)
      modifies this, server
      ensures used <= |arrivals|
      ensures var evs := batch + Concat(arrivals[..used]);
              && Model() == HandleAll(x, old(Model()), Filtered(evs), clock)
              && |Filtered(evs)| + 2 * dropped == |evs|
              && WaitedOut(x, evs, arrivals, used)
    {
      var evs, i := batch, 0;
      ghost var handled: seq<Event> := [];
      ghost var start := Model();
      used, dropped := 0, 0;
      assert arrivals[..0] == [];
      ProgressStart(evs);
      while i < |evs|
        invariant used <= |arrivals| && i <= |evs|
        invariant evs == batch + Concat(arrivals[..used])
        invariant Progress(evs, i, handled) && |handled| + 2 * dropped == i
        invariant Model() == HandleAll(x, start, handled, clock)
        invariant i == |evs| ==> WaitedOut(x, evs, arrivals, used)
        decreases |arrivals| - used, |evs| - i
      {
        if evs[i].KeyRelease? && evs[i].detail == x.keycode && i + 1 == |evs| {
          evs, used := Lookahead(batch, evs, i, arrivals, used, handled);
        }
        ProgressStep(evs, i, handled);
        if i + 1 < |evs| && IsRepeat(evs[i], evs[i + 1]) {
          dropped := dropped + 1;
          i := i + 2;
        } else {
          HandleNext(evs[i], i - 2 * dropped, clock, start, handled);
          handled := handled + [evs[i]];
          i := i + 1;
        }
      }
    }
  }

  lemma {:induction false} HandleOneMore(x: Setup, w: World, evs: seq<Event>, e: Event, clock: nat -> real)
    ensures HandleAll(x, w, evs + [e], clock) == Handle(x, HandleAll(x, w, evs, clock), e, clock(|evs|))
  {
    assert (evs + [e])[..|evs|] == evs;
  }
}

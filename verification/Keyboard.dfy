/**
 Turning keycodes into keysyms: which keys are down, how many hold each modifier, and the modifier
 bits the keymap tables are chosen by.
 */
module Keyboard {
  import opened Basics

  // A short by its bits, lowest first.
  type Bits = b: seq<bool> | |b| == 16 witness seq(16, _ => false)

  const NR_KEYS: nat := 256
  const NR_SHIFT: nat := 9

  const KT_SPEC: nat := 2
  const KT_SHIFT: nat := 7
  const KT_LETTER: nat := 11

  const K_HOLE: nat := 0x200
  const K_NOSUCHMAP: nat := 0x27F
  const K_CAPS: nat := 0x207
  const K_NUM: nat := 0x208
  const K_CAPSON: nat := 0x20D
  const K_BARENUMLOCK: nat := 0x213

  const KG_SHIFT: nat := 0
  const KG_CAPSSHIFT: nat := 8

  function TypeOf(sym: nat): nat { sym / 256 }
  function ValueOf(sym: nat): nat { sym % 256 }

  // The keysym a table gives for a keycode, if the kernel answers.
  type Keymap = (nat, nat) -> Option<nat>

  datatype Keys = Keys(
    down: seq<bool>,       // by keycode
    held: seq<nat>,        // by modifier: an unsigned char each
    bits: Bits,            // shift_state
    caps: bool,
    num: bool)

  predicate Valid(s: Keys) {
    && |s.down| == NR_KEYS && |s.held| == NR_SHIFT
    && forall v :: 0 <= v < NR_SHIFT ==> s.held[v] < 256
  }

  function Initial(caps: bool, num: bool): Keys {
    Keys(seq(NR_KEYS, _ => false), seq(NR_SHIFT, _ => 0), seq(16, _ => false), caps, num)
  }

  function Number(b: seq<bool>): nat {
    if b == [] then 0 else (if b[0] then 1 else 0) + 2 * Number(b[1..])
  }

  // kb_table is an unsigned char.
  function Table(b: Bits): nat { Number(b[..8]) }

  // b ^ (1 << KG_SHIFT)
  function Turned(b: Bits): Bits { b[KG_SHIFT := !b[KG_SHIFT]] }

  // The keysym looked up: a letter under caps lock comes from the table with the shift bit turned.
  function Lookup(keymap: Keymap, s: Keys, code: nat): Option<nat> {
    var sym := keymap(Table(s.bits), code);
    if sym.Some? && TypeOf(sym.value) == KT_LETTER && s.caps then keymap(Table(Turned(s.bits)), code) else sym
  }

  function Locked(s: Keys, sym: nat, struck: bool, applicKeypad: bool): Keys {
    if !struck || (sym == K_NUM && applicKeypad) then s
    else if sym == K_NUM || sym == K_BARENUMLOCK then s.(num := !s.num)
    else if sym == K_CAPS then s.(caps := !s.caps)
    else if sym == K_CAPSON then s.(caps := true)
    else s
  }

  // The counter a modifier keysym belongs to: caps shift counts as shift.
  function Counter(value: nat): nat { if value == KG_CAPSSHIFT then KG_SHIFT else value }

  function Count(n: nat, down: bool): nat {
    if down then (n + 1) % 256 else if n > 0 then n - 1 else 0
  }

  function Shifted(s: Keys, value: nat, down: bool): Keys
    requires Valid(s) && value < NR_SHIFT
  {
    var v := Counter(value);
    var n := Count(s.held[v], down);
    s.(held := s.held[v := n],
       bits := s.bits[v := n > 0],
       caps := s.caps && !(value == KG_CAPSSHIFT && down))
  }

  // What a keysym does to the locks and the modifiers.
  function Effect(t: Keys, sym: nat, down: bool, repeated: bool, applicKeypad: bool): Keys
    requires Valid(t)
  {
    if TypeOf(sym) == KT_SPEC then Locked(t, sym, down && !repeated, applicKeypad)
    else if TypeOf(sym) == KT_SHIFT && ValueOf(sym) < NR_SHIFT && !repeated then Shifted(t, ValueOf(sym), down)
    else t
  }

  function Strike(keymap: Keymap, s: Keys, code: nat, down: bool, applicKeypad: bool): Keys
    requires Valid(s)
  {
    if code >= NR_KEYS then s
    else
      var t := s.(down := s.down[code := down]);
      var sym := Keysym(keymap, s, code);
      if sym == K_HOLE then t else Effect(t, sym, down, down && s.down[code], applicKeypad)
  }

  function Keysym(keymap: Keymap, s: Keys, code: nat): nat {
    if code >= NR_KEYS then K_HOLE
    else
      match Lookup(keymap, s, code)
      case None => K_HOLE
      case Some(sym) => if sym == K_HOLE || sym == K_NOSUCHMAP then K_HOLE else sym
  }

  datatype Event = Key(code: nat, down: bool) | Reset(caps: bool, num: bool)

  function After(keymap: Keymap, s: Keys, e: Event, applicKeypad: bool): Keys
    requires Valid(s)
  {
    match e
    case Key(code, down) => Strike(keymap, s, code, down, applicKeypad)
    case Reset(caps, num) => Initial(caps, num)
  }

  lemma AfterValid(keymap: Keymap, s: Keys, e: Event, a: bool)
    requires Valid(s)
    ensures Valid(After(keymap, s, e, a))
  {
  }

  function Run(keymap: Keymap, s: Keys, es: seq<Event>, a: bool): Keys
    requires Valid(s)
    decreases |es|
  {
    if es == [] then s
    else
      AfterValid(keymap, s, es[0], a);
      Run(keymap, After(keymap, s, es[0], a), es[1..], a)
  }

  // ---------------------------------------------------------------- the bits follow the counters

  ghost predicate BitsFollow(s: Keys)
    requires Valid(s)
  {
    && (forall v :: 0 <= v < NR_SHIFT ==> (s.bits[v] <==> s.held[v] > 0))
    && (forall v :: NR_SHIFT <= v < 16 ==> !s.bits[v])
    && s.held[KG_CAPSSHIFT] == 0
  }

  lemma ShiftedFollows(s: Keys, value: nat, down: bool)
    requires Valid(s) && BitsFollow(s) && value < NR_SHIFT
    ensures Valid(Shifted(s, value, down)) && BitsFollow(Shifted(s, value, down))
  {
  }

  lemma InitialFollows(caps: bool, num: bool)
    ensures Valid(Initial(caps, num)) && BitsFollow(Initial(caps, num))
  {
  }

  lemma EffectFollows(t: Keys, sym: nat, down: bool, repeated: bool, a: bool)
    requires Valid(t) && BitsFollow(t)
    ensures Valid(Effect(t, sym, down, repeated, a)) && BitsFollow(Effect(t, sym, down, repeated, a))
  {
    if TypeOf(sym) == KT_SHIFT && ValueOf(sym) < NR_SHIFT {
      ShiftedFollows(t, ValueOf(sym), down);
    }
  }

  lemma AfterFollows(keymap: Keymap, s: Keys, e: Event, a: bool)
    requires Valid(s) && BitsFollow(s)
    ensures Valid(After(keymap, s, e, a)) && BitsFollow(After(keymap, s, e, a))
  {
    match e
    case Reset(caps, num) => InitialFollows(caps, num);
    case Key(code, down) =>
      if code < NR_KEYS {
        var t := s.(down := s.down[code := down]);
        EffectFollows(t, Keysym(keymap, s, code), down, down && s.down[code], a);
      }
  }

  /** Over every run, with any keymap: a modifier's bit is set exactly while its counter is not zero. */
  lemma {:induction false} RunFollows(keymap: Keymap, s: Keys, es: seq<Event>, a: bool)
    requires Valid(s) && BitsFollow(s)
    ensures Valid(Run(keymap, s, es, a)) && BitsFollow(Run(keymap, s, es, a))
    decreases |es|
  {
    if es != [] {
      AfterFollows(keymap, s, es[0], a);
      RunFollows(keymap, After(keymap, s, es[0], a), es[1..], a);
    }
  }

  /** Nothing is lost when the bits become an 8-bit table number. */
  lemma TableExact(s: Keys)
    requires Valid(s) && BitsFollow(s)
    ensures Table(s.bits) == Number(s.bits) < 256
  {
    assert s.bits == s.bits[..8] + s.bits[8..];
    HighBitsClear(s.bits[..8], s.bits[8..]);
    NumberBelow(s.bits[..8]);
    assert Power(8) == 256;
  }

  lemma {:induction false} HighBitsClear(low: seq<bool>, high: seq<bool>)
    requires forall i :: 0 <= i < |high| ==> !high[i]
    ensures Number(low + high) == Number(low)
    decreases |low| + |high|
  {
    if low != [] {
      assert (low + high)[1..] == low[1..] + high;
      HighBitsClear(low[1..], high);
    } else if high != [] {
      assert low + high == high;
      HighBitsClear([], high[1..]);
      assert [] + high[1..] == high[1..];
    }
  }

  function Power(n: nat): nat { if n == 0 then 1 else 2 * Power(n - 1) }

  lemma {:induction false} NumberBelow(b: seq<bool>)
    ensures Number(b) < Power(|b|)
  {
    if b != [] {
      NumberBelow(b[1..]);
    }
  }

  /** An autorepeat changes nothing. */
  lemma RepeatIsIdle(keymap: Keymap, s: Keys, code: nat, a: bool)
    requires Valid(s) && code < NR_KEYS && s.down[code]
    ensures Strike(keymap, s, code, true, a) == s
  {
    assert s.down[code := true] == s.down;
  }

  // ---------------------------------------------------------------- the counters follow the keys

  // The modifier a keysym is, if it is one.
  function ModifierOf(sym: Option<nat>): (m: Option<nat>)
    ensures m.Some? ==> m.value < NR_SHIFT
  {
    if sym.Some? && TypeOf(sym.value) == KT_SHIFT && ValueOf(sym.value) < NR_SHIFT then
      Some(Counter(ValueOf(sym.value)))
    else
      None
  }

  type Modifiers = nat -> Option<nat>

  // The table in use gives a keycode the modifier that is its own.
  predicate Agrees(keymap: Keymap, mods: Modifiers, s: Keys, code: nat) {
    ModifierOf(Lookup(keymap, s, code)) == mods(code)
  }

  // Every keycode is the same modifier, or none, in every table ...
  ghost predicate Alike(keymap: Keymap, mods: Modifiers) {
    forall table: nat, code: nat :: table < 256 && code < NR_KEYS ==> ModifierOf(keymap(table, code)) == mods(code)
  }

  // ... or at least in every table that the modifiers there are keys for can select.
  ghost predicate Consistent(keymap: Keymap, mods: Modifiers) {
    forall s: Keys, code: nat :: Selectable(s.bits, mods) && code < NR_KEYS ==> Agrees(keymap, mods, s, code)
  }

  ghost predicate Selectable(b: Bits, mods: Modifiers) {
    forall v :: 0 <= v < 16 && b[v] ==> HasKey(mods, v)
  }

  ghost predicate HasKey(mods: Modifiers, v: nat) {
    exists code: nat :: code < NR_KEYS && mods(code) == Some(v)
  }

  lemma AlikeIsConsistent(keymap: Keymap, mods: Modifiers)
    requires Alike(keymap, mods)
    ensures Consistent(keymap, mods)
  {
    forall s: Keys, code: nat | Selectable(s.bits, mods) && code < NR_KEYS
      ensures Agrees(keymap, mods, s, code)
    {
      AlikeAgrees(keymap, mods, s, code);
    }
  }

  lemma AlikeAgrees(keymap: Keymap, mods: Modifiers, s: Keys, code: nat)
    requires Alike(keymap, mods) && code < NR_KEYS
    ensures Agrees(keymap, mods, s, code)
  {
    var t1, t2 := Table(s.bits), Table(Turned(s.bits));
    TableRange(s.bits);
    TableRange(Turned(s.bits));
    assert ModifierOf(keymap(t1, code)) == mods(code) && ModifierOf(keymap(t2, code)) == mods(code);
  }

  // There are only so many modifiers.
  ghost predicate Proper(mods: Modifiers) {
    forall code: nat :: code < NR_KEYS && mods(code).Some? ==> mods(code).value < NR_SHIFT
  }

  // The keys below `n` that are down and mapped to modifier `v`.
  function HeldKeys(down: seq<bool>, mods: Modifiers, v: nat, n: nat): nat
    requires n <= |down|
  {
    if n == 0 then 0
    else HeldKeys(down, mods, v, n - 1) + if down[n - 1] && mods(n - 1) == Some(v) then 1 else 0
  }

  lemma {:induction false} HeldKeysUpdate(down: seq<bool>, mods: Modifiers, v: nat, n: nat, code: nat, to: bool)
    requires n <= |down| && code < |down|
    ensures var own := if code < n && mods(code) == Some(v) then 1 else 0;
      HeldKeys(down[code := to], mods, v, n) + (if down[code] then own else 0) ==
      HeldKeys(down, mods, v, n) + (if to then own else 0)
  {
    if n > 0 {
      HeldKeysUpdate(down, mods, v, n - 1, code, to);
    }
  }

  ghost predicate Tracks(s: Keys, mods: Modifiers)
    requires Valid(s)
  {
    forall v: nat :: v < NR_SHIFT ==> s.held[v] == HeldKeys(s.down, mods, v, NR_KEYS)
  }

  // A release of a key that was not down, while others hold its modifier; or the 256th key of one modifier.
  predicate Upsets(s: Keys, mods: Modifiers, code: nat, down: bool)
    requires Valid(s)
  {
    && code < NR_KEYS && !s.down[code] && mods(code).Some? && mods(code).value < NR_SHIFT
    && if down then s.held[mods(code).value] == 255 else s.held[mods(code).value] > 0
  }

  lemma TableRange(b: Bits)
    ensures Table(b) < 256
  {
    NumberBelow(b[..8]);
    assert Power(8) == 256;
  }

  // What a key event does to the keys and the counters, through the modifier looked up.
  lemma StrikeCounts(keymap: Keymap, s: Keys, code: nat, down: bool, a: bool)
    requires Valid(s) && code < NR_KEYS
    ensures var t, m := Strike(keymap, s, code, down, a), ModifierOf(Lookup(keymap, s, code));
      && Valid(t) && t.down == s.down[code := down]
      && t.held ==
        if m.Some? && !(down && s.down[code]) then s.held[m.value := Count(s.held[m.value], down)] else s.held
  {
    AfterValid(keymap, s, Key(code, down), a);
  }

  // What makes an event that is not a repeat disturb the counters.  A press: the table in use has
  // another modifier for the key than its own, or it is the 256th key of the modifier.  A release of
  // a key that is down: another modifier, unless the key has none and there is nothing to count down.
  // A release of a key that is not down: the modifier looked up is held by others.
  predicate Disturbs(keymap: Keymap, mods: Modifiers, s: Keys, code: nat, down: bool)
    requires Valid(s)
  {
    var looked, own := ModifierOf(Lookup(keymap, s, code)), mods(code);
    && code < NR_KEYS && !(down && s.down[code])
    && if down then looked != own || (looked.Some? && s.held[looked.value] == 255)
       else if s.down[code] then looked != own && !(own.None? && looked.Some? && s.held[looked.value] == 0)
       else looked.Some? && s.held[looked.value] > 0
  }

  /** One event, with any keymap: the counters go on counting the keys held if and only if the event
      does not disturb them. */
  lemma StrikeTracks(keymap: Keymap, mods: Modifiers, s: Keys, code: nat, down: bool, a: bool)
    requires Valid(s) && Proper(mods) && Tracks(s, mods)
    ensures Valid(Strike(keymap, s, code, down, a))
    ensures Tracks(Strike(keymap, s, code, down, a), mods) <==> !Disturbs(keymap, mods, s, code, down)
  {
    if code < NR_KEYS {
      StrikeCounts(keymap, s, code, down, a);
      var t, looked, own := Strike(keymap, s, code, down, a), ModifierOf(Lookup(keymap, s, code)), mods(code);
      forall v: nat | v < NR_SHIFT
        ensures HeldKeys(t.down, mods, v, NR_KEYS) + (if s.down[code] && own == Some(v) then 1 else 0) ==
                s.held[v] + (if down && own == Some(v) then 1 else 0)
      {
        HeldKeysUpdate(s.down, mods, v, NR_KEYS, code, down);
        assert s.held[v] == HeldKeys(s.down, mods, v, NR_KEYS);
      }
      if Disturbs(keymap, mods, s, code, down) {
        var v := if own.Some? && (down || s.down[code]) then own.value else looked.value;
        assert t.held[v] != HeldKeys(t.down, mods, v, NR_KEYS);
      }
    }
  }

  /** Where the table in use agrees with the key's own modifier, these are the events that disturb. */
  lemma DisturbsOrUpsets(keymap: Keymap, mods: Modifiers, s: Keys, code: nat, down: bool)
    requires Valid(s) && Proper(mods) && (code < NR_KEYS ==> Agrees(keymap, mods, s, code))
    ensures Disturbs(keymap, mods, s, code, down) <==> Upsets(s, mods, code, down)
  {
  }

  // No event of the run disturbs the counters.
  ghost predicate Undisturbed(keymap: Keymap, mods: Modifiers, s: Keys, es: seq<Event>, a: bool)
    requires Valid(s)
    decreases |es|
  {
    es == [] ||
    (&& (es[0].Key? ==> !Disturbs(keymap, mods, s, es[0].code, es[0].down))
     && Valid(After(keymap, s, es[0], a))
     && Undisturbed(keymap, mods, After(keymap, s, es[0], a), es[1..], a))
  }

  // The counters are right before, during and after the run.
  ghost predicate AlwaysTracks(keymap: Keymap, mods: Modifiers, s: Keys, es: seq<Event>, a: bool)
    requires Valid(s)
    decreases |es|
  {
    && Tracks(s, mods)
    && (es == [] ||
        (Valid(After(keymap, s, es[0], a)) && AlwaysTracks(keymap, mods, After(keymap, s, es[0], a), es[1..], a)))
  }

  /** Over any run, with any keymap: the counters are right throughout if and only if no event disturbs
      them; and then they are right at the end. */
  lemma {:induction false} RunTracksExactly(keymap: Keymap, mods: Modifiers, s: Keys, es: seq<Event>, a: bool)
    requires Valid(s) && Proper(mods) && Tracks(s, mods)
    ensures AlwaysTracks(keymap, mods, s, es, a) <==> Undisturbed(keymap, mods, s, es, a)
    ensures Undisturbed(keymap, mods, s, es, a) ==>
      Valid(Run(keymap, s, es, a)) && Tracks(Run(keymap, s, es, a), mods)
    decreases |es|
  {
    if es != [] {
      var t := After(keymap, s, es[0], a);
      AfterValid(keymap, s, es[0], a);
      match es[0] {
        case Reset(caps, num) => InitialTracks(caps, num, mods);
        case Key(code, down) => StrikeTracks(keymap, mods, s, code, down, a);
      }
      if Tracks(t, mods) {
        RunTracksExactly(keymap, mods, t, es[1..], a);
      } else {
        assert !AlwaysTracks(keymap, mods, t, es[1..], a);
      }
    }
  }

  // Keys come up only after they went down.
  ghost predicate WellFormed(keymap: Keymap, s: Keys, es: seq<Event>, a: bool)
    requires Valid(s)
    decreases |es|
  {
    es == [] ||
    (&& (es[0].Key? && es[0].code < NR_KEYS && !es[0].down ==> s.down[es[0].code])
     && Valid(After(keymap, s, es[0], a))
     && WellFormed(keymap, After(keymap, s, es[0], a), es[1..], a))
  }

  // No modifier has all the keycodes.
  ghost predicate Spread(mods: Modifiers) {
    forall v: nat :: v < NR_SHIFT ==> exists code: nat :: code < NR_KEYS && mods(code) != Some(v)
  }

  lemma {:induction false} HeldAtMost(down: seq<bool>, mods: Modifiers, v: nat, n: nat)
    requires n <= |down|
    ensures HeldKeys(down, mods, v, n) <= n
    ensures forall code: nat :: code < n && !(down[code] && mods(code) == Some(v)) ==> HeldKeys(down, mods, v, n) < n
  {
    if n > 0 {
      HeldAtMost(down, mods, v, n - 1);
    }
  }

  lemma NeverTheLast(s: Keys, mods: Modifiers, code: nat)
    requires Valid(s) && Tracks(s, mods) && Spread(mods)
    ensures !Upsets(s, mods, code, true)
  {
    if code < NR_KEYS && !s.down[code] && mods(code).Some? && mods(code).value < NR_SHIFT {
      var v := mods(code).value;
      var other: nat :| other < NR_KEYS && mods(other) != Some(v);
      var more := s.down[code := true];
      HeldKeysUpdate(s.down, mods, v, NR_KEYS, code, true);
      HeldAtMost(more, mods, v, NR_KEYS);
      assert !(more[other] && mods(other) == Some(v));
      assert HeldKeys(s.down, mods, v, NR_KEYS) < 255;
    }
  }

  lemma {:induction false} NoneHeld(down: seq<bool>, mods: Modifiers, v: nat, n: nat)
    requires n <= |down| && forall i :: 0 <= i < n ==> !down[i]
    ensures HeldKeys(down, mods, v, n) == 0
  {
    if n > 0 {
      NoneHeld(down, mods, v, n - 1);
    }
  }

  lemma InitialTracks(caps: bool, num: bool, mods: Modifiers)
    ensures Valid(Initial(caps, num)) && Tracks(Initial(caps, num), mods)
  {
    var s := Initial(caps, num);
    forall v: nat | v < NR_SHIFT
      ensures s.held[v] == HeldKeys(s.down, mods, v, NR_KEYS)
    {
      NoneHeld(s.down, mods, v, NR_KEYS);
    }
  }

  // The tables that can be in use from here agree with the keys' own modifiers.
  ghost predicate Settled(keymap: Keymap, mods: Modifiers, s: Keys)
    requires Valid(s)
  {
    Alike(keymap, mods) || (Consistent(keymap, mods) && BitsFollow(s) && Tracks(s, mods))
  }

  lemma SettledAgrees(keymap: Keymap, mods: Modifiers, s: Keys, code: nat)
    requires Valid(s) && Settled(keymap, mods, s)
    ensures Proper(mods) && (code < NR_KEYS ==> Agrees(keymap, mods, s, code))
  {
    if Alike(keymap, mods) {
      AlikeIsConsistent(keymap, mods);
      if code < NR_KEYS {
        AlikeAgrees(keymap, mods, s, code);
      }
    } else {
      BitsSelectable(s, mods);
    }
    ConsistentIsProper(keymap, mods);
  }

  lemma ConsistentIsProper(keymap: Keymap, mods: Modifiers)
    requires Consistent(keymap, mods)
    ensures Proper(mods)
  {
    var s := Initial(false, false);
    assert Selectable(s.bits, mods);
    forall code: nat | code < NR_KEYS
      ensures mods(code) == ModifierOf(Lookup(keymap, s, code))
    {
      assert Agrees(keymap, mods, s, code);
    }
  }

  // A bit is set only while a key holds it.
  lemma BitsSelectable(s: Keys, mods: Modifiers)
    requires Valid(s) && BitsFollow(s) && Tracks(s, mods)
    ensures Selectable(s.bits, mods)
  {
    forall v | 0 <= v < 16 && s.bits[v]
      ensures HasKey(mods, v)
    {
      assert v < NR_SHIFT && s.held[v] == HeldKeys(s.down, mods, v, NR_KEYS) > 0;
      SomeKey(s.down, mods, v, NR_KEYS);
    }
  }

  lemma {:induction false} SomeKey(down: seq<bool>, mods: Modifiers, v: nat, n: nat)
    requires n <= |down| && n <= NR_KEYS && HeldKeys(down, mods, v, n) > 0
    ensures HasKey(mods, v)
  {
    if down[n - 1] && mods(n - 1) == Some(v) {
      assert HasKey(mods, v);
    } else {
      SomeKey(down, mods, v, n - 1);
    }
  }

  lemma SettledStays(keymap: Keymap, mods: Modifiers, s: Keys, e: Event, a: bool)
    requires Valid(s) && Settled(keymap, mods, s)
    requires Valid(After(keymap, s, e, a)) && Tracks(After(keymap, s, e, a), mods)
    ensures Settled(keymap, mods, After(keymap, s, e, a))
  {
    if !Alike(keymap, mods) {
      AfterFollows(keymap, s, e, a);
    }
  }

  /** Over every well-formed run of presses, repeats, releases and resets, each counter is the number of
      keys held that are mapped to its modifier. */
  lemma {:induction false} RunTracks(keymap: Keymap, mods: Modifiers, s: Keys, es: seq<Event>, a: bool)
    requires Valid(s) && Settled(keymap, mods, s) && Spread(mods) && Tracks(s, mods) && WellFormed(keymap, s, es, a)
    ensures AlwaysTracks(keymap, mods, s, es, a)
    ensures Valid(Run(keymap, s, es, a)) && Tracks(Run(keymap, s, es, a), mods)
    decreases |es|
  {
    if es != [] {
      AfterValid(keymap, s, es[0], a);
      match es[0] {
        case Reset(caps, num) => InitialTracks(caps, num, mods);
        case Key(code, down) => WellFormedTracks(keymap, mods, s, code, down, a);
      }
      SettledStays(keymap, mods, s, es[0], a);
      RunTracks(keymap, mods, After(keymap, s, es[0], a), es[1..], a);
    }
  }

  lemma WellFormedTracks(keymap: Keymap, mods: Modifiers, s: Keys, code: nat, down: bool, a: bool)
    requires Valid(s) && Settled(keymap, mods, s) && Spread(mods) && Tracks(s, mods)
    requires code < NR_KEYS && !down ==> s.down[code]
    ensures Valid(Strike(keymap, s, code, down, a)) && Tracks(Strike(keymap, s, code, down, a), mods)
  {
    SettledAgrees(keymap, mods, s, code);
    StrikeTracks(keymap, mods, s, code, down, a);
    DisturbsOrUpsets(keymap, mods, s, code, down);
    if down {
      NeverTheLast(s, mods, code);
    }
  }

  // ---------------------------------------------------------------- and it takes no less

  // Every keycode once, from `from` on.
  function PressFrom(from: nat): seq<Event>
    decreases NR_KEYS - from
  {
    if from >= NR_KEYS then [] else [Key(from, true)] + PressFrom(from + 1)
  }

  /** If all keycodes are one modifier, holding all of them makes its counter wrap to zero. */
  lemma {:induction false} AllOneModifier(keymap: Keymap, mods: Modifiers, s: Keys, v: nat, from: nat, a: bool)
    requires Valid(s) && v < NR_SHIFT && from <= NR_KEYS && (from < NR_KEYS ==> Settled(keymap, mods, s))
    requires forall code: nat :: code < NR_KEYS ==> mods(code) == Some(v)
    requires (forall i :: 0 <= i < NR_KEYS ==> s.down[i] == (i < from)) && s.held[v] == from % 256
    ensures WellFormed(keymap, s, PressFrom(from), a)
    ensures var t := Run(keymap, s, PressFrom(from), a);
      Valid(t) && t.held[v] == 0 && forall i :: 0 <= i < NR_KEYS ==> t.down[i]
    decreases NR_KEYS - from
  {
    if from < NR_KEYS {
      var es := PressFrom(from);
      assert es[0] == Key(from, true) && es[1..] == PressFrom(from + 1);
      PressOne(keymap, mods, s, v, from, a);
      AllOneModifier(keymap, mods, Strike(keymap, s, from, true, a), v, from + 1, a);
    }
  }

  // One more key of the modifier.
  lemma PressOne(keymap: Keymap, mods: Modifiers, s: Keys, v: nat, from: nat, a: bool)
    requires Valid(s) && Settled(keymap, mods, s) && v < NR_SHIFT && from < NR_KEYS && mods(from) == Some(v)
    requires (forall i :: 0 <= i < NR_KEYS ==> s.down[i] == (i < from)) && s.held[v] == from % 256
    ensures var t := Strike(keymap, s, from, true, a);
      && Valid(t) && t.held[v] == (from + 1) % 256
      && (forall i :: 0 <= i < NR_KEYS ==> t.down[i] == (i < from + 1))
      && (from + 1 < NR_KEYS ==> Settled(keymap, mods, t))
  {
    StrikeCounts(keymap, s, from, true, a);
    SettledAgrees(keymap, mods, s, from);
    if from + 1 < NR_KEYS && !Alike(keymap, mods) {
      DisturbsOrUpsets(keymap, mods, s, from, true);
      StrikeTracks(keymap, mods, s, from, true, a);
      SettledStays(keymap, mods, s, Key(from, true), a);
    }
  }

  lemma {:induction false} AllHeld(down: seq<bool>, mods: Modifiers, v: nat, n: nat)
    requires n <= |down| && forall i: nat :: i < n ==> down[i] && mods(i) == Some(v)
    ensures HeldKeys(down, mods, v, n) == n
  {
    if n > 0 {
      AllHeld(down, mods, v, n - 1);
    }
  }

  /** The counters are right over all well-formed runs from a reset if and only if no modifier has all
      the keycodes. */
  lemma TracksExactly(keymap: Keymap, mods: Modifiers, caps: bool, num: bool, a: bool)
    requires Consistent(keymap, mods)
    ensures Valid(Initial(caps, num))
    ensures Spread(mods) <==>
      forall es :: WellFormed(keymap, Initial(caps, num), es, a) ==>
        Valid(Run(keymap, Initial(caps, num), es, a)) && Tracks(Run(keymap, Initial(caps, num), es, a), mods)
  {
    var s := Initial(caps, num);
    InitialTracks(caps, num, mods);
    InitialFollows(caps, num);
    if Spread(mods) {
      forall es | WellFormed(keymap, s, es, a)
        ensures Valid(Run(keymap, s, es, a)) && Tracks(Run(keymap, s, es, a), mods)
      {
        RunTracks(keymap, mods, s, es, a);
      }
    } else {
      var v: nat :| v < NR_SHIFT && forall code: nat :: code < NR_KEYS ==> mods(code) == Some(v);
      OneModifierFails(keymap, mods, s, v, a);
    }
  }

  lemma OneModifierFails(keymap: Keymap, mods: Modifiers, s: Keys, v: nat, a: bool)
    requires Valid(s) && Settled(keymap, mods, s) && v < NR_SHIFT
    requires forall code: nat :: code < NR_KEYS ==> mods(code) == Some(v)
    requires (forall i :: 0 <= i < NR_KEYS ==> !s.down[i]) && s.held[v] == 0
    ensures WellFormed(keymap, s, PressFrom(0), a)
    ensures Valid(Run(keymap, s, PressFrom(0), a)) && !Tracks(Run(keymap, s, PressFrom(0), a), mods)
  {
    AllOneModifier(keymap, mods, s, v, 0, a);
    AllHeld(Run(keymap, s, PressFrom(0), a).down, mods, v, NR_KEYS);
  }

  // Every keycode is shift, in every table.
  function AllShift(table: nat, code: nat): Option<nat> { Some(0x700) }

  function ShiftEverywhere(code: nat): Option<nat> { Some(KG_SHIFT) }

  /** With such a keymap, 256 keys held leave the counter at zero. */
  lemma WrapCanFail(caps: bool, num: bool)
    ensures Alike(AllShift, ShiftEverywhere) && Valid(Initial(caps, num))
    ensures WellFormed(AllShift, Initial(caps, num), PressFrom(0), false)
    ensures var t := Run(AllShift, Initial(caps, num), PressFrom(0), false);
      Valid(t) && t.held[KG_SHIFT] == 0 && (forall i :: 0 <= i < NR_KEYS ==> t.down[i]) && !Tracks(t, ShiftEverywhere)
  {
    AllOneModifier(AllShift, ShiftEverywhere, Initial(caps, num), KG_SHIFT, 0, false);
    OneModifierFails(AllShift, ShiftEverywhere, Initial(caps, num), KG_SHIFT, false);
  }

  // Keycode 42 is shift and keycode 56 is the third-level shift; only the plain and the shifted table exist.
  function TwoTables(table: nat, code: nat): Option<nat> {
    if table > 1 then Some(K_NOSUCHMAP)
    else if code == 42 then Some(0x700)
    else if code == 56 then Some(0x701)
    else Some(K_HOLE)
  }

  function ShiftAndThird(code: nat): Option<nat> {
    if code == 42 then Some(KG_SHIFT) else if code == 56 then Some(1) else None
  }

  /** The second key is pressed while a table is in use that does not exist: it is held and not counted. */
  lemma MissingTableCanFail(caps: bool, num: bool)
    ensures Valid(Initial(caps, num))
    ensures WellFormed(TwoTables, Initial(caps, num), [Key(56, true), Key(42, true)], false)
    ensures var t := Run(TwoTables, Initial(caps, num), [Key(56, true), Key(42, true)], false);
      && Valid(t) && t.down[42] && t.held[KG_SHIFT] == 0
      && HeldKeys(t.down, ShiftAndThird, KG_SHIFT, NR_KEYS) > 0 && !Tracks(t, ShiftAndThird)
  {
    var s := Initial(caps, num);
    var es := [Key(56, true), Key(42, true)];
    assert es[1..] == [Key(42, true)] && es[1..][1..] == [];
    StrikeCounts(TwoTables, s, 56, true, false);
    var s1 := Strike(TwoTables, s, 56, true, false);
    ThirdTable(s, s1);
    StrikeCounts(TwoTables, s1, 42, true, false);
    var t := Strike(TwoTables, s1, 42, true, false);
    assert t == Run(TwoTables, s, es, false);
    HeldKeysUpdate(t.down, ShiftAndThird, KG_SHIFT, NR_KEYS, 42, false);
  }

  lemma ThirdTable(s: Keys, s1: Keys)
    requires Valid(s) && s.bits == seq(16, _ => false) && !s.down[56] && s.held[1] == 0
    requires s1 == Strike(TwoTables, s, 56, true, false)
    ensures Valid(s1) && Table(s1.bits) == 2 && Lookup(TwoTables, s1, 42) == Some(K_NOSUCHMAP)
  {
    AllClear(s.bits[..8]);
    StrikeCounts(TwoTables, s, 56, true, false);
    assert s1.bits == s.bits[1 := true];
    SecondBit(s1.bits[..8]);
  }

  lemma SecondBit(b: seq<bool>)
    requires |b| >= 2 && forall i :: 0 <= i < |b| ==> b[i] == (i == 1)
    ensures Number(b) == 2
  {
    assert Number(b) == 2 * Number(b[1..]) && Number(b[1..]) == 1 + 2 * Number(b[1..][1..]);
    AllClear(b[1..][1..]);
  }

  lemma {:induction false} AllClear(b: seq<bool>)
    requires forall i :: 0 <= i < |b| ==> !b[i]
    ensures Number(b) == 0
  {
    if b != [] {
      AllClear(b[1..]);
    }
  }

  // Keycodes 42 and 54 are shift, in every table; there is nothing else.
  function TwoShifts(table: nat, code: nat): Option<nat> {
    if code == 42 || code == 54 then Some(0x700) else None
  }

  function ShiftsOnly(code: nat): Option<nat> {
    if code == 42 || code == 54 then Some(KG_SHIFT) else None
  }

  /** One shift key goes down, another that never did comes up: a key is held and the counter is zero. */
  lemma StrayReleaseCanFail(caps: bool, num: bool)
    ensures Alike(TwoShifts, ShiftsOnly) && Valid(Initial(caps, num))
    ensures var t := Run(TwoShifts, Initial(caps, num), [Key(42, true), Key(54, false)], false);
      && Valid(t) && t.down[42] && t.held[KG_SHIFT] == 0
      && HeldKeys(t.down, ShiftsOnly, KG_SHIFT, NR_KEYS) > 0 && !Tracks(t, ShiftsOnly)
  {
    var s := Initial(caps, num);
    var es := [Key(42, true), Key(54, false)];
    assert es[1..] == [Key(54, false)] && es[1..][1..] == [];
    StrikeCounts(TwoShifts, s, 42, true, false);
    var s1 := Strike(TwoShifts, s, 42, true, false);
    StrikeCounts(TwoShifts, s1, 54, false, false);
    var t := Strike(TwoShifts, s1, 54, false, false);
    assert t == Run(TwoShifts, s, es, false);
    HeldKeysUpdate(t.down, ShiftsOnly, KG_SHIFT, NR_KEYS, 42, false);
  }

  // ---------------------------------------------------------------- which keysym a key gives

  // What the caller gets of a table's answer.
  function Given(sym: Option<nat>): nat {
    if sym.None? || sym.value == K_NOSUCHMAP then K_HOLE else sym.value
  }

  // The table of the held ones among the first `n` modifiers: a power of two for each.
  function TableOf(held: seq<nat>, n: nat): nat
    requires n <= |held|
  {
    if n == 0 then 0 else TableOf(held, n - 1) + if held[n - 1] > 0 then Power(n - 1) else 0
  }

  lemma {:induction false} NumberMore(b: seq<bool>, x: bool)
    ensures Number(b + [x]) == Number(b) + if x then Power(|b|) else 0
    decreases |b|
  {
    if b == [] {
      assert ([] + [x])[1..] == [];
    } else {
      assert (b + [x])[1..] == b[1..] + [x];
      NumberMore(b[1..], x);
    }
  }

  lemma {:induction false} NumberIsTable(s: Keys, n: nat)
    requires Valid(s) && BitsFollow(s) && n <= NR_SHIFT
    ensures Number(s.bits[..n]) == TableOf(s.held, n)
  {
    if n > 0 {
      NumberIsTable(s, n - 1);
      assert s.bits[..n] == s.bits[..n - 1] + [s.bits[n - 1]];
      NumberMore(s.bits[..n - 1], s.bits[n - 1]);
    }
  }

  /** The keysym is the one of the table of the held modifiers, with shift turned for a letter under caps
      lock; nothing else decides it. */
  lemma KeysymExactly(keymap: Keymap, s: Keys, code: nat)
    requires Valid(s) && BitsFollow(s) && code < NR_KEYS
    ensures var table := TableOf(s.held, 8);
      var sym, turned := keymap(table, code), if s.held[KG_SHIFT] > 0 then table - 1 else table + 1;
      && 0 <= turned
      && Keysym(keymap, s, code) ==
        if sym.Some? && sym.value / 256 == KT_LETTER && s.caps then Given(keymap(turned, code)) else Given(sym)
  {
    NumberIsTable(s, 8);
    TurnedExactly(s.bits);
  }

  lemma TurnedExactly(b: Bits)
    ensures Table(Turned(b)) == if b[0] then Table(b) - 1 else Table(b) + 1
  {
    assert Turned(b)[..8][1..] == b[..8][1..];
  }

  // ---------------------------------------------------------------- what a key changes

  // The keysym of modifier `v`; caps shift is one more keysym for shift.
  predicate IsModifierSym(sym: nat, v: nat) {
    (v < KG_CAPSSHIFT && sym == 256 * KT_SHIFT + v) || (v == KG_SHIFT && sym == 256 * KT_SHIFT + KG_CAPSSHIFT)
  }

  /** A key changes whether it is down, and the counter of the modifier it is, up or down by one, unless it
      repeats. */
  lemma CountersExactly(keymap: Keymap, s: Keys, code: nat, down: bool, a: bool)
    requires Valid(s) && code < NR_KEYS
    ensures var t, sym := Strike(keymap, s, code, down, a), Keysym(keymap, s, code);
      && Valid(t) && t.down == s.down[code := down]
      && forall v: nat :: v < NR_SHIFT ==>
        t.held[v] ==
          if IsModifierSym(sym, v) && !(down && s.down[code]) then
            if down then (s.held[v] + 1) % 256 else if s.held[v] > 0 then s.held[v] - 1 else 0
          else s.held[v]
  {
    AfterValid(keymap, s, Key(code, down), a);
  }

  // What an event is to the locks: a keysym struck, a reset, or nothing.
  datatype Stroke = Struck(sym: nat) | Restart(caps: bool, num: bool) | Nothing

  // Releases and repeats are nothing.
  function StrokeOf(keymap: Keymap, s: Keys, e: Event): Stroke
    requires Valid(s)
  {
    match e
    case Reset(caps, num) => Restart(caps, num)
    case Key(code, down) => if code < NR_KEYS && down && !s.down[code] then Struck(Keysym(keymap, s, code)) else Nothing
  }

  function Strokes(keymap: Keymap, s: Keys, es: seq<Event>, a: bool): (ss: seq<Stroke>)
    requires Valid(s)
    ensures |ss| == |es|
    decreases |es|
  {
    if es == [] then []
    else
      AfterValid(keymap, s, es[0], a);
      [StrokeOf(keymap, s, es[0])] + Strokes(keymap, After(keymap, s, es[0], a), es[1..], a)
  }

  predicate TogglesNum(st: Stroke, a: bool) {
    st.Struck? && (st.sym == K_BARENUMLOCK || (st.sym == K_NUM && !a))
  }

  predicate TogglesCaps(st: Stroke) { st.Struck? && st.sym == K_CAPS }

  // Caps lock is as this says, whatever it was.
  predicate SetsCaps(st: Stroke) {
    st.Restart? || (st.Struck? && (st.sym == K_CAPSON || st.sym == 256 * KT_SHIFT + KG_CAPSSHIFT))
  }

  function CapsSet(st: Stroke): bool
    requires SetsCaps(st)
  {
    if st.Restart? then st.caps else st.sym == K_CAPSON
  }

  function NumToggles(ss: seq<Stroke>, a: bool): nat {
    if ss == [] then 0 else (if TogglesNum(ss[0], a) then 1 else 0) + NumToggles(ss[1..], a)
  }

  function CapsToggles(ss: seq<Stroke>): nat {
    if ss == [] then 0 else (if TogglesCaps(ss[0]) then 1 else 0) + CapsToggles(ss[1..])
  }

  lemma LocksStep(keymap: Keymap, s: Keys, e: Event, a: bool)
    requires Valid(s)
    ensures var t, st := After(keymap, s, e, a), StrokeOf(keymap, s, e);
      && t.num == (if st.Restart? then st.num else s.num != TogglesNum(st, a))
      && t.caps == (if SetsCaps(st) then CapsSet(st) else s.caps != TogglesCaps(st))
  {
  }

  // The first `i` strokes are those up to the last reset.
  ghost predicate LastReset(ss: seq<Stroke>, i: nat) {
    i <= |ss| && (i > 0 ==> ss[i - 1].Restart?) && forall n :: i <= n < |ss| ==> !ss[n].Restart?
  }

  // The first `i` strokes are those up to the last one that sets caps lock.
  ghost predicate LastSet(ss: seq<Stroke>, i: nat) {
    i <= |ss| && (i > 0 ==> SetsCaps(ss[i - 1])) && forall n :: i <= n < |ss| ==> !SetsCaps(ss[n])
  }

  /** Over every run, with any keymap: num lock is what the last reset made it, toggled once for each time
      one of its keysyms was struck since. */
  lemma {:induction false} NumOverRun(keymap: Keymap, s: Keys, es: seq<Event>, a: bool, i: nat)
    requires Valid(s) && LastReset(Strokes(keymap, s, es, a), i)
    ensures var ss := Strokes(keymap, s, es, a);
      Run(keymap, s, es, a).num == ((if i == 0 then s.num else ss[i - 1].num) != (NumToggles(ss[i..], a) % 2 == 1))
    decreases |es|
  {
    if es != [] {
      var ss, t := Strokes(keymap, s, es, a), After(keymap, s, es[0], a);
      AfterValid(keymap, s, es[0], a);
      LocksStep(keymap, s, es[0], a);
      assert ss[1..] == Strokes(keymap, t, es[1..], a);
      ResetLater(ss, i);
      NumOverRun(keymap, t, es[1..], a, if i == 0 then 0 else i - 1);
      assert i > 0 ==> ss[i..] == ss[1..][i - 1..];
      assert ss[0..] == ss && ss[1..][0..] == ss[1..];
    }
  }

  lemma ResetLater(ss: seq<Stroke>, i: nat)
    requires ss != [] && LastReset(ss, i)
    ensures LastReset(ss[1..], if i == 0 then 0 else i - 1)
  {
    forall n | i <= n + 1 < |ss| && 0 <= n
      ensures !ss[1..][n].Restart?
    {
      assert ss[1..][n] == ss[n + 1];
    }
  }

  /** And caps lock is what the last reset, caps-on or caps shift made it, toggled once for each time caps
      lock was struck since. */
  lemma {:induction false} CapsOverRun(keymap: Keymap, s: Keys, es: seq<Event>, a: bool, i: nat)
    requires Valid(s) && LastSet(Strokes(keymap, s, es, a), i)
    ensures var ss := Strokes(keymap, s, es, a);
      Run(keymap, s, es, a).caps == ((if i == 0 then s.caps else CapsSet(ss[i - 1])) != (CapsToggles(ss[i..]) % 2 == 1))
    decreases |es|
  {
    if es != [] {
      var ss, t := Strokes(keymap, s, es, a), After(keymap, s, es[0], a);
      AfterValid(keymap, s, es[0], a);
      LocksStep(keymap, s, es[0], a);
      assert ss[1..] == Strokes(keymap, t, es[1..], a);
      SetLater(ss, i);
      CapsOverRun(keymap, t, es[1..], a, if i == 0 then 0 else i - 1);
      assert i > 0 ==> ss[i..] == ss[1..][i - 1..];
      assert ss[0..] == ss && ss[1..][0..] == ss[1..];
    }
  }

  lemma SetLater(ss: seq<Stroke>, i: nat)
    requires ss != [] && LastSet(ss, i)
    ensures LastSet(ss[1..], if i == 0 then 0 else i - 1)
  {
    forall n | i <= n + 1 < |ss| && 0 <= n
      ensures !SetsCaps(ss[1..][n])
    {
      assert ss[1..][n] == ss[n + 1];
    }
  }

  // ---------------------------------------------------------------- the tables in place

  class KeyboardState {
    const keyDown: array<bool>
    const shiftDown: array<nat>
    var shiftState: Bits
    var caps: bool
    var num: bool
    var applicKeypad: bool
    const keymap: Keymap

    ghost predicate Usable()
      reads shiftDown
    {
      && keyDown.Length == NR_KEYS && shiftDown.Length == NR_SHIFT
      && forall v :: 0 <= v < NR_SHIFT ==> shiftDown[v] < 256
    }

    ghost function State(): (s: Keys)
      requires Usable()
      reads this, keyDown, shiftDown
      ensures Valid(s)
    {
      Keys(keyDown[..], shiftDown[..], shiftState, caps, num)
    }

    constructor (keymap: Keymap, caps: bool, num: bool, applicKeypad: bool)
      ensures Usable() && this.keymap == keymap && this.applicKeypad == applicKeypad
      ensures State() == Initial(caps, num)
    {
      keyDown := new bool[NR_KEYS](_ => false);
      shiftDown := new nat[NR_SHIFT](_ => 0);
      shiftState, this.caps, this.num := seq(16, _ => false), caps, num;
      this.applicKeypad, this.keymap := applicKeypad, keymap;
      new;
      assert keyDown[..] == Initial(caps, num).down && shiftDown[..] == Initial(caps, num).held;
    }

    method InitKeycodeState(caps: bool, num: bool)
      requires Usable()
      modifies this, keyDown, shiftDown
      ensures Usable() && State() == Initial(caps, num) && applicKeypad == old(applicKeypad)
    {
      shiftState := seq(16, _ => false);
      forall i | 0 <= i < keyDown.Length {
        keyDown[i] := false;
      }
      forall v | 0 <= v < shiftDown.Length {
        shiftDown[v] := 0;
      }
      this.caps, this.num := caps, num;
      assert keyDown[..] == Initial(caps, num).down && shiftDown[..] == Initial(caps, num).held;
    }

    method KeycodeToKeysym(keycode: nat, down: bool) returns (sym: nat)
      requires Usable()
      modifies this, keyDown, shiftDown
      ensures Usable() && State() == Strike(keymap, old(State()), keycode, down, old(applicKeypad))
      ensures sym == Keysym(keymap, old(State()), keycode) && applicKeypad == old(applicKeypad)
    {
      if keycode >= NR_KEYS {
        return K_HOLE;
      }
      var rep := down && keyDown[keycode];
      keyDown[keycode] := down;
      sym := SymOf(keycode);
      if sym == K_HOLE {
        return;
      }
      if TypeOf(sym) == KT_SPEC {
        LockKey(sym, down && !rep);
      } else if TypeOf(sym) == KT_SHIFT && ValueOf(sym) < NR_SHIFT && !rep {
        ShiftKey(ValueOf(sym), down);
      }
    }

    // The two keymap queries.
    method SymOf(keycode: nat) returns (sym: nat)
      requires Usable() && keycode < NR_KEYS
      ensures sym == Keysym(keymap, State(), keycode)
    {
      var ke := keymap(Table(shiftState), keycode);
      if ke == None {
        return K_HOLE;
      }
      if TypeOf(ke.value) == KT_LETTER && caps {
        ke := keymap(Table(Turned(shiftState)), keycode);
        if ke == None {
          return K_HOLE;
        }
      }
      return if ke.value == K_HOLE || ke.value == K_NOSUCHMAP then K_HOLE else ke.value;
    }

    method LockKey(sym: nat, struck: bool)
      requires Usable()
      modifies `caps, `num
      ensures State() == Locked(old(State()), sym, struck, applicKeypad)
    {
      if (sym == K_NUM && !applicKeypad) || sym == K_BARENUMLOCK || sym == K_CAPS || sym == K_CAPSON {
        if struck {
          if sym == K_NUM || sym == K_BARENUMLOCK {
            num := !num;
          } else if sym == K_CAPS {
            caps := !caps;
          } else {
            caps := true;
          }
        }
      }
    }

    method ShiftKey(number: nat, down: bool)
      requires Usable() && number < NR_SHIFT
      modifies shiftDown, `shiftState, `caps
      ensures Usable() && State() == Shifted(old(State()), number, down)
    {
      var value := number;
      if value == KG_CAPSSHIFT {
        value := KG_SHIFT;
        if down {
          caps := false;
        }
      }
      if down {
        shiftDown[value] := (shiftDown[value] + 1) % 256;
      } else if shiftDown[value] > 0 {
        shiftDown[value] := shiftDown[value] - 1;
      }
      shiftState := shiftState[value := shiftDown[value] > 0];
    }
  }
}

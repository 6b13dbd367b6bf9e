/**
 The transmission positions a node hands out while it ranks relays: an early window of narrow slots,
 then a ladder of rungs half an airtime apart, and the hashed tie-break added to each position.
 */
module RelayWindow {
  import opened Machine

  const CW_MAX: u8 := 8
  const WINDOW_POSITIONS: u8 := 15
  const MIN_RUNG_SPACING_MS: u32 := 50
  const MIN_TIE_BREAK_RANGE_MS: u32 := 20

  // ---- Spacing and tie-break ----

  /** The transition between the early window and the ladder. */
  function RelayFloorMs(slotTime: u32): nat { 2 * CW_MAX * slotTime }

  function HalfAirtimeMs(airtime: u32): u32 { Max(airtime / 2, MIN_RUNG_SPACING_MS) }

  function TieBreakRangeMs(half: u32): u32 { Max(half / 2, MIN_TIE_BREAK_RANGE_MS) }

  /** Exclusive or, bit by bit. */
  function Xor(a: nat, b: nat): nat {
    if a == 0 && b == 0 then 0 else (a + b) % 2 + 2 * Xor(a / 2, b / 2)
  }

  function SlotTieBreakMs(half: u32, id: u32, node: u32): u32 {
    Xor(node, id) % TieBreakRangeMs(half) + 1
  }

  /** The tie-break stays below the rung spacing exactly when the spacing is above its minimum range. */
  lemma TieBreakBelowSpacing(half: u32, id: u32, node: u32)
    ensures 1 <= SlotTieBreakMs(half, id, node) <= TieBreakRangeMs(half)
    ensures TieBreakRangeMs(half) < half <==> half > MIN_TIE_BREAK_RANGE_MS
  {
  }

  // ---- The early window and the ladder as values ----

  datatype Window = Window(width: u32, slotTime: u32, half: u32, cursor: u32, lastPlaced: Option<u32>, placed: u8) {

    predicate Open() { placed < WINDOW_POSITIONS && cursor < width }

    function Place(step: u32): Window
      requires Open()
    {
      this.(cursor := SaturatingAdd(cursor, step), lastPlaced := Some(cursor), placed := placed + 1)
    }

    /** Where the ladder starts: after the transition and clear of the last window position. */
    function FirstRungMs(): nat {
      if lastPlaced.None? then RelayFloorMs(slotTime)
      else Max(RelayFloorMs(slotTime), SaturatingAdd(lastPlaced.value, half))
    }
  }

  datatype Take = Reserved | Rung | LateRung

  datatype Allocator = Allocator(window: Window, half: u32, ladderStart: Option<nat>, nextIndex: u8) {

    function Start(): nat {
      if ladderStart.Some? then ladderStart.value else window.FirstRungMs()
    }

    /** The rung a spilled position lands on. */
    function SpillMs(): nat {
      var rung := if nextIndex >= window.placed then nextIndex - window.placed else 0;
      Min(Start() + Min(rung * half, U32_MAX), U32_MAX)
    }

    predicate FromWindow(take: Take) { take != LateRung && window.Open() }

    function Position(take: Take): nat {
      if FromWindow(take) then window.cursor else SpillMs()
    }

    function After(take: Take): Allocator {
      var next := if nextIndex < 255 then nextIndex + 1 else 255;
      if FromWindow(take) then
        this.(window := window.Place(if take == Reserved then window.slotTime else half), nextIndex := next)
      else this.(ladderStart := Some(Start()), nextIndex := next)
    }

    function FirstFreeMs(): nat {
      if window.lastPlaced.None? then window.FirstRungMs() else SpillMs()
    }
  }

  function NewWindow(slotTime: u32, half: u32): Window {
    Window(SaturatingMul(slotTime, WINDOW_POSITIONS), slotTime, half, 0, None, 0)
  }

  function NewAllocator(slotTime: u32, half: u32): Allocator {
    Allocator(NewWindow(slotTime, half), half, None, 0)
  }

  /** The positions a series of takes receives. */
  function Assign(a: Allocator, takes: seq<Take>): (positions: seq<nat>)
    ensures |positions| == |takes|
    decreases |takes|
  {
    if takes == [] then [] else [a.Position(takes[0])] + Assign(a.After(takes[0]), takes[1..])
  }

  /** The allocator after a series of takes. */
  function Advance(a: Allocator, takes: seq<Take>): Allocator {
    if takes == [] then a else Advance(a, takes[..|takes| - 1]).After(takes[|takes| - 1])
  }

  lemma {:induction false} AdvanceAppend(a: Allocator, s: seq<Take>, t: seq<Take>)
    ensures Advance(a, s + t) == Advance(Advance(a, s), t)
    decreases |t|
  {
    if t == [] {
      assert s + t == s;
    } else {
      var n := |t| - 1;
      AdvanceAppend(a, s, t[..n]);
      assert (s + t)[..|s| + n] == s + t[..n];
    }
  }

  /** Position `k` of a series is the one the allocator gives after the takes before it. */
  lemma {:induction false} AssignAt(a: Allocator, takes: seq<Take>, k: nat)
    requires k < |takes|
    ensures Assign(a, takes)[k] == Advance(a, takes[..k]).Position(takes[k])
    decreases |takes|
  {
    if k > 0 {
      AssignAt(a.After(takes[0]), takes[1..], k - 1);
      AdvanceAppend(a, [takes[0]], takes[1..][..k - 1]);
      assert [takes[0]] + takes[1..][..k - 1] == takes[..k];
      assert Advance(a, [takes[0]]) == a.After(takes[0]);
    }
  }

  lemma {:induction false} AdvanceIndex(a: Allocator, takes: seq<Take>)
    ensures Advance(a, takes).nextIndex == Min(a.nextIndex + |takes|, 255)
  {
    if takes != [] {
      AdvanceIndex(a, takes[..|takes| - 1]);
    }
  }

  lemma RepeatStep(a: Allocator, take: Take, n: nat)
    ensures Advance(a, Repeat(take, n + 1)) == Advance(a, Repeat(take, n)).After(take)
  {
    assert Repeat(take, n + 1)[..n] == Repeat(take, n);
  }

  // ---- Spacing of ranked positions ----

  /** Late rungs come last, as the planner takes them. */
  ghost predicate LateLast(takes: seq<Take>) {
    forall i, j :: 0 <= i < j < |takes| && takes[i] == LateRung ==> takes[j] == LateRung
  }

  /** Neither the position counter nor a 32-bit time saturates while `n` positions are handed out. */
  ghost predicate Roomy(slotTime: u32, half: u32, n: nat) {
    n <= 255 && RelayFloorMs(slotTime) + (n + 1) * half < U32_SPAN
  }

  /** An allocator with `n` positions left to hand out. */
  ghost predicate Sound(a: Allocator, n: nat) {
    var w := a.window;
    && w.half == a.half && w.width == WINDOW_POSITIONS * w.slotTime
    && w.placed <= a.nextIndex && a.nextIndex + n <= 255
    && RelayFloorMs(w.slotTime) + (a.nextIndex + n + 1) * a.half < U32_SPAN
    && (w.lastPlaced.Some? ==>
          && w.lastPlaced.value < w.width
          && w.cursor <= w.lastPlaced.value + Max(w.slotTime, w.half)
          && (w.cursor <= w.lastPlaced.value + w.half || w.cursor <= RelayFloorMs(w.slotTime)))
    && (w.lastPlaced.None? ==> w.cursor == 0)
    && (a.ladderStart.None? ==> a.nextIndex == w.placed)
    && (a.ladderStart.Some? ==> a.ladderStart.value == w.FirstRungMs())
  }

  /** No later position is below this one. */
  ghost function Frontier(a: Allocator): int {
    if a.ladderStart.Some? then a.SpillMs() else a.window.cursor
  }

  lemma SpillExact(a: Allocator, n: nat)
    requires Sound(a, n) && n > 0
    ensures a.SpillMs() == a.Start() + (a.nextIndex - a.window.placed) * a.half < U32_SPAN
    ensures a.Start() == a.window.FirstRungMs() >= a.window.cursor
  {
    LadderFits(RelayFloorMs(a.window.slotTime), a.half, a.nextIndex - a.window.placed, a.nextIndex + n + 1);
  }

  /** A rung within the budget stays within 32 bits, even on a ladder that starts half an airtime late. */
  lemma LadderFits(floor: nat, half: u32, rung: nat, budget: nat)
    requires rung + 2 <= budget && floor + budget * half < U32_SPAN
    ensures floor + half + rung * half < U32_SPAN
  {
    Product(rung + 2, budget, half);
    assert (rung + 2) * half == rung * half + half + half;
  }

  lemma BudgetStep(a: Allocator, n: nat)
    requires Sound(a, n) && n > 0
    ensures (a.nextIndex + 1 + (n - 1) + 1) * a.half == (a.nextIndex + n + 1) * a.half
    ensures a.half <= (a.nextIndex + n + 1) * a.half
  {
    Product(1, a.nextIndex + n + 1, a.half);
  }

  lemma WindowTake(a: Allocator, take: Take, n: nat)
    requires Sound(a, n) && n > 0
    requires a.ladderStart.None? && a.FromWindow(take)
    ensures Sound(a.After(take), n - 1)
    ensures Frontier(a) == a.Position(take) < U32_SPAN
    ensures Frontier(a.After(take)) == a.Position(take) + (if take == Reserved then a.window.slotTime else a.half)
  {
    BudgetStep(a, n);
  }

  lemma LadderTake(a: Allocator, take: Take, n: nat)
    requires Sound(a, n) && n > 0
    requires !a.FromWindow(take)
    ensures Sound(a.After(take), n - 1)
    ensures Frontier(a) <= a.Position(take) < U32_SPAN
    ensures n > 1 ==> Frontier(a.After(take)) == a.Position(take) + a.half
  {
    hide Window.FirstRungMs;
    BudgetStep(a, n);
    SpillExact(a, n);
    var b := a.After(take);
    var rung := a.nextIndex - a.window.placed;
    assert b.nextIndex - b.window.placed == rung + 1;
    assert (rung + 1) * a.half == rung * a.half + a.half;
    if n > 1 { SpillExact(b, n - 1); }
  }

  /** One take: its position is at the frontier, and a ranked one pushes it half an airtime on. */
  lemma TakeAdvances(a: Allocator, take: Take, n: nat)
    requires Sound(a, n) && n > 0
    requires a.ladderStart.Some? ==> take == LateRung || !a.window.Open()
    ensures Sound(a.After(take), n - 1)
    ensures Frontier(a) <= a.Position(take) < U32_SPAN
    ensures n > 1 ==> Frontier(a.After(take)) >= Frontier(a)
    ensures take != Reserved && n > 1 ==> Frontier(a.After(take)) >= a.Position(take) + a.half
    ensures !a.FromWindow(take) ==> a.After(take).ladderStart.Some? && a.After(take).window == a.window
    ensures a.FromWindow(take) ==> a.After(take).ladderStart.None?
  {
    if a.FromWindow(take) { WindowTake(a, take, n); } else { LadderTake(a, take, n); }
  }

  /** Positions handed out from here on are at or above the frontier, and ranked ones are spaced. */
  lemma {:induction false} AssignSpaced(a: Allocator, takes: seq<Take>)
    requires Sound(a, |takes|)
    requires LateLast(takes)
    requires a.ladderStart.Some? ==> !a.window.Open() || (forall i :: 0 <= i < |takes| ==> takes[i] == LateRung)
    ensures forall i :: 0 <= i < |takes| ==> Frontier(a) <= Assign(a, takes)[i] < U32_SPAN
    ensures forall i, j :: 0 <= i < j < |takes| && takes[i] != Reserved && takes[j] != Reserved ==>
              Assign(a, takes)[i] + a.half <= Assign(a, takes)[j]
    decreases |takes|
  {
    if takes == [] {
    } else {
      TakeAdvances(a, takes[0], |takes|);
      var b := a.After(takes[0]);
      var rest := takes[1..];
      assert forall i :: 0 <= i < |rest| ==> rest[i] == takes[i + 1];
      AssignSpaced(b, rest);
      var all := Assign(a, takes);
      assert forall i :: 0 < i < |takes| ==> all[i] == Assign(b, rest)[i - 1];
    }
  }

  /**
   From a new allocator, for any mix of reservations and rungs followed by late rungs, any two ranked
   positions are at least half an airtime apart, in the order they were taken.
   */
  lemma RankedPositionsSpaced(slotTime: u32, half: u32, takes: seq<Take>, i: nat, j: nat)
    requires Roomy(slotTime, half, |takes|) && LateLast(takes)
    requires i < j < |takes| && takes[i] != Reserved && takes[j] != Reserved
    ensures var positions := Assign(NewAllocator(slotTime, half), takes);
            positions[i] + half <= positions[j] < U32_SPAN
  {
    AssignSpaced(NewAllocator(slotTime, half), takes);
  }

  /** A ranked node still sends before every later-ranked one once each has added its own tie-break. */
  lemma TieBreaksKeepOrder(half: u32, id: u32, first: u32, second: u32, p: nat, q: nat)
    requires half >= MIN_RUNG_SPACING_MS
    requires p + half <= q
    ensures p + SlotTieBreakMs(half, id, first) < q + SlotTieBreakMs(half, id, second)
  {
    TieBreakBelowSpacing(half, id, first);
    TieBreakBelowSpacing(half, id, second);
  }

  // ---- The first free position ----

  ghost predicate ClearOfRanked(positions: seq<nat>, takes: seq<Take>, at: nat, half: u32)
    requires |positions| == |takes|
  {
    forall i :: 0 <= i < |takes| && takes[i] != Reserved ==> positions[i] + half <= at
  }

  /** One more take leaves the positions given so far as they are. */
  lemma AssignMore(a: Allocator, takes: seq<Take>, take: Take)
    ensures Assign(a, takes + [take]) == Assign(a, takes) + [Advance(a, takes).Position(take)]
  {
    var more := takes + [take];
    hide Assign, Advance, Allocator.Position;
    forall i | 0 <= i < |more|
      ensures Assign(a, more)[i] == (Assign(a, takes) + [Advance(a, takes).Position(take)])[i]
    {
      AssignAt(a, more, i);
      if i < |takes| {
        AssignAt(a, takes, i);
        assert more[..i] == takes[..i];
      } else {
        assert more[..i] == takes;
      }
    }
  }

  /** An allocator that placed nothing in its window. */
  ghost predicate Untouched(a: Allocator, slotTime: u32, half: u32) {
    && a.window == NewWindow(slotTime, half) && a.half == half
    && (a.ladderStart.Some? ==> a.ladderStart.value == RelayFloorMs(slotTime))
  }

  lemma LadderOnly(a: Allocator, take: Take, slotTime: u32, half: u32)
    requires RelayFloorMs(slotTime) < U32_SPAN
    requires a.window.lastPlaced.None? ==> Untouched(a, slotTime, half)
    requires a.After(take).window.lastPlaced.None?
    ensures a.window.lastPlaced.None? && Untouched(a.After(take), slotTime, half)
    ensures a.Position(take) >= RelayFloorMs(slotTime) && (slotTime > 0 ==> take == LateRung)
  {
  }

  lemma AdvanceMore(a: Allocator, takes: seq<Take>, take: Take)
    ensures Advance(a, takes + [take]) == Advance(a, takes).After(take)
  {
    assert (takes + [take])[..|takes|] == takes;
  }

  lemma {:induction false} UntouchedRun(slotTime: u32, half: u32, takes: seq<Take>, k: nat)
    requires RelayFloorMs(slotTime) < U32_SPAN && k <= |takes|
    requires Advance(NewAllocator(slotTime, half), takes).window.lastPlaced.None?
    ensures var b := Advance(NewAllocator(slotTime, half), takes[..k]);
            b.window.lastPlaced.None? && Untouched(b, slotTime, half)
    decreases |takes|
  {
    var a := NewAllocator(slotTime, half);
    if takes != [] {
      var n := |takes| - 1;
      var b := Advance(a, takes[..n]);
      if b.window.lastPlaced.None? { UntouchedRun(slotTime, half, takes[..n], n); }
      assert takes[..n][..n] == takes[..n];
      LadderOnly(b, takes[n], slotTime, half);
      if k <= n {
        UntouchedRun(slotTime, half, takes[..n], k);
        assert takes[..n][..k] == takes[..k];
      } else {
        assert takes[..k] == takes;
      }
      hide Untouched, NewAllocator, Allocator.After;
    }
  }

  /** While nothing was placed in the window, everything taken lies on the ladder from its transition. */
  lemma NothingPlaced(slotTime: u32, half: u32, takes: seq<Take>, k: nat)
    requires RelayFloorMs(slotTime) < U32_SPAN && k < |takes|
    requires Advance(NewAllocator(slotTime, half), takes).window.lastPlaced.None?
    ensures Assign(NewAllocator(slotTime, half), takes)[k] >= RelayFloorMs(slotTime)
    ensures slotTime > 0 ==> takes[k] == LateRung
  {
    var a := NewAllocator(slotTime, half);
    hide Advance, Assign, Untouched, RelayFloorMs, Allocator.Position, Allocator.After, NewAllocator;
    UntouchedRun(slotTime, half, takes, k);
    UntouchedRun(slotTime, half, takes, k + 1);
    AssignAt(a, takes, k);
    assert takes[..k + 1] == takes[..k] + [takes[k]];
    AdvanceMore(a, takes[..k], takes[k]);
    LadderOnly(Advance(a, takes[..k]), takes[k], slotTime, half);
  }

  /** With a position in the window, the first free one is the next late rung. */
  lemma FirstFreeIsNextRung(slotTime: u32, half: u32, takes: seq<Take>)
    requires Roomy(slotTime, half, |takes| + 1) && LateLast(takes)
    requires Advance(NewAllocator(slotTime, half), takes).window.lastPlaced.Some?
    ensures var a := NewAllocator(slotTime, half);
            ClearOfRanked(Assign(a, takes), takes, Advance(a, takes).FirstFreeMs(), half)
  {
    var a, n := NewAllocator(slotTime, half), |takes|;
    assert Advance(a, takes).FirstFreeMs() == Advance(a, takes).Position(LateRung);
    AssignMore(a, takes, LateRung);
    hide Assign, Advance, NewAllocator, Allocator.Position, Allocator.FirstFreeMs, Roomy;
    forall i | 0 <= i < n && takes[i] != Reserved ensures Assign(a, takes)[i] + half <= Advance(a, takes).FirstFreeMs() {
      RankedPositionsSpaced(slotTime, half, takes + [LateRung], i, n);
    }
  }

  /** With nothing in the window, the first free position is the transition, which is the first one taken. */
  lemma FirstFreeIsTransition(slotTime: u32, half: u32, takes: seq<Take>)
    requires RelayFloorMs(slotTime) < U32_SPAN && takes != []
    requires Advance(NewAllocator(slotTime, half), takes).window.lastPlaced.None?
    ensures var a := NewAllocator(slotTime, half); var at := Advance(a, takes).FirstFreeMs();
            && (forall k :: 0 <= k < |takes| ==> Assign(a, takes)[k] >= at)
            && Assign(a, takes)[0] == at && (slotTime > 0 ==> takes[0] == LateRung)
  {
    var a := NewAllocator(slotTime, half);
    UntouchedRun(slotTime, half, takes, |takes|);
    assert takes[..|takes|] == takes && takes[..0] == [];
    assert Advance(a, takes).FirstFreeMs() == RelayFloorMs(slotTime);
    FirstIsTransition(slotTime, half, takes);
    hide Advance, Assign, Untouched, RelayFloorMs, NewAllocator, Allocator.FirstFreeMs;
    forall k | 0 <= k < |takes| ensures Assign(a, takes)[k] >= RelayFloorMs(slotTime) {
      NothingPlaced(slotTime, half, takes, k);
    }
    NothingPlaced(slotTime, half, takes, 0);
  }

  lemma FirstIsTransition(slotTime: u32, half: u32, takes: seq<Take>)
    requires RelayFloorMs(slotTime) < U32_SPAN && takes != []
    requires Advance(NewAllocator(slotTime, half), takes).window.lastPlaced.None?
    ensures Assign(NewAllocator(slotTime, half), takes)[0] == RelayFloorMs(slotTime)
  {
    var a := NewAllocator(slotTime, half);
    UntouchedRun(slotTime, half, takes, 1);
    assert takes[..1] == [] + [takes[0]];
    AdvanceMore(a, [], takes[0]);
    assert Assign(a, takes)[0] == a.Position(takes[0]);
    hide Assign;
  }

  /**
   The first free position is half an airtime clear of every ranked one exactly when something was placed in
   the window or nothing was ranked. After late rungs only, it is the very position of the first of them; and a
   caller reads the condition off the allocator.
   */
  lemma FirstFreeIsClearExactly(slotTime: u32, half: u32, takes: seq<Take>)
    requires half > 0 && Roomy(slotTime, half, |takes| + 1) && LateLast(takes)
    ensures var a := NewAllocator(slotTime, half);
            var after := Advance(a, takes);
            var clear := ClearOfRanked(Assign(a, takes), takes, after.FirstFreeMs(), half);
            && (clear <==> after.window.lastPlaced.Some? || forall i :: 0 <= i < |takes| ==> takes[i] == Reserved)
            && (!clear ==> Assign(a, takes)[0] == after.FirstFreeMs())
            && (slotTime > 0 ==> (clear <==> after.window.lastPlaced.Some? || after.nextIndex == 0))
  {
    var a := NewAllocator(slotTime, half);
    AdvanceIndex(a, takes);
    if Advance(a, takes).window.lastPlaced.Some? {
      FirstFreeIsNextRung(slotTime, half, takes);
    } else if takes != [] {
      FirstFreeIsTransition(slotTime, half, takes);
      hide Assign, Advance, NewAllocator, Allocator.FirstFreeMs, LateLast;
    }
  }

  // ---- The allocator object ----

  class PositionAllocator {
    var cursorMs: u32
    var lastPlacedEndMs: Option<u32>
    var placed: u8
    var ladderStartMs: Option<nat>
    var nextIndex: u8
    const widthMs: u32
    const slotTimeMs: u32
    const halfAirtimeMs: u32

    ghost function Model(): Allocator
      reads this
    {
      Allocator(Window(widthMs, slotTimeMs, halfAirtimeMs, cursorMs, lastPlacedEndMs, placed), halfAirtimeMs,
                ladderStartMs, nextIndex)
    }

    constructor (slotTime: u32, half: u32)
      ensures Model() == NewAllocator(slotTime, half)
    {
      widthMs, slotTimeMs, halfAirtimeMs := SaturatingMul(slotTime, WINDOW_POSITIONS), slotTime, half;
      cursorMs, lastPlacedEndMs, placed := 0, None, 0;
      ladderStartMs, nextIndex := None, 0;
    }

    method Place(width: u32) returns (at: Option<u32>)
      modifies this`cursorMs, this`lastPlacedEndMs, this`placed
      ensures !old(Model()).window.Open() ==> at == None && Model() == old(Model())
      ensures old(Model()).window.Open() ==>
                at == Some(old(cursorMs)) && Model() == old(Model()).(window := old(Model()).window.Place(width))
    {
      if placed >= WINDOW_POSITIONS || cursorMs >= widthMs {
        return None;
      }
      at := Some(cursorMs);
      lastPlacedEndMs := at;
      cursorMs := SaturatingAdd(cursorMs, width);
      placed := placed + 1;
    }

    method Spill() returns (at: nat)
      modifies this`ladderStartMs
      ensures at == old(Model()).SpillMs()
      ensures Model() == old(Model()).(ladderStart := Some(old(Model()).Start()))
    {
      if ladderStartMs.None? {
        var transition := 2 * CW_MAX * slotTimeMs;
        ladderStartMs := Some(if lastPlacedEndMs.None? then transition
                              else Max(transition, SaturatingAdd(lastPlacedEndMs.value, halfAirtimeMs)));
      }
      var rung := if nextIndex >= placed then nextIndex - placed else 0;
      at := Min(ladderStartMs.value + Min(rung * halfAirtimeMs, U32_MAX), U32_MAX);
    }

    /** `take_reserved`, `take_rung` and `take_late_rung`. */
    method TakePosition(take: Take) returns (at: nat)
      modifies this`cursorMs, this`lastPlacedEndMs, this`placed, this`ladderStartMs, this`nextIndex
      ensures at == old(Model()).Position(take)
      ensures Model() == old(Model()).After(take)
    {
      var inWindow: Option<u32> := None;
      if take != LateRung {
        inWindow := Place(if take == Reserved then slotTimeMs else halfAirtimeMs);
      }
      if inWindow.Some? {
        at := inWindow.value;
      } else {
        at := Spill();
      }
      nextIndex := if nextIndex < 255 then nextIndex + 1 else 255;
    }
  }
}

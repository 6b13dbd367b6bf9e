/** The position of every take in a plain formula: fifteen narrow slots, then a ladder behind a fixed transition. */
module WindowPlan {
  import opened Machine
  import opened RelayWindow

  /** Where the early window stands before take `k`, if all takes before it came from the window. */
  ghost function Cursor(takes: seq<Take>, k: nat, slotTime: nat, half: nat): nat
    requires k <= |takes|
  {
    if k == 0 then 0 else Cursor(takes, k - 1, slotTime, half) + if takes[k - 1] == Reserved then slotTime else half
  }

  /** Take `k` comes from the early window: one of the first fifteen, within fifteen slots. */
  ghost predicate Early(takes: seq<Take>, k: nat, slotTime: nat, half: nat)
    requires k < |takes|
  {
    takes[k] != LateRung && k < 15 && Cursor(takes, k, slotTime, half) < 15 * slotTime
  }

  /** How many of the first `k` takes come from the window. */
  ghost function Earlies(takes: seq<Take>, k: nat, slotTime: nat, half: nat): (m: nat)
    requires k <= |takes|
    ensures m <= k && (m > 0 ==> Early(takes, m - 1, slotTime, half))
  {
    if k == 0 then 0 else if Early(takes, k - 1, slotTime, half) then k else Earlies(takes, k - 1, slotTime, half)
  }

  /** The ladder starts after sixteen slots, and half an airtime behind the last of `m` window positions. */
  ghost function LadderFrom(takes: seq<Take>, m: nat, slotTime: nat, half: nat): nat
    requires m <= |takes|
  {
    if m == 0 then 16 * slotTime else Max(16 * slotTime, Cursor(takes, m - 1, slotTime, half) + half)
  }

  ghost function PositionOf(takes: seq<Take>, k: nat, slotTime: nat, half: nat): int
    requires k < |takes|
  {
    if Early(takes, k, slotTime, half) then Cursor(takes, k, slotTime, half)
    else
      var m := Earlies(takes, k, slotTime, half);
      LadderFrom(takes, m, slotTime, half) + (k - m) * half
  }

  lemma {:induction false} CursorGrows(takes: seq<Take>, j: nat, k: nat, slotTime: nat, half: nat)
    requires j <= k <= |takes|
    ensures Cursor(takes, j, slotTime, half) <= Cursor(takes, k, slotTime, half)
    decreases k
  {
    if j < k { CursorGrows(takes, j, k - 1, slotTime, half); }
  }

  /** The early takes come first. */
  lemma {:induction false} EarliesFirst(takes: seq<Take>, k: nat, j: nat, slotTime: nat, half: nat)
    requires LateLast(takes) && j < k <= |takes|
    ensures Early(takes, j, slotTime, half) <==> j < Earlies(takes, k, slotTime, half)
  {
    if j == k - 1 {
    } else if Early(takes, k - 1, slotTime, half) {
      CursorGrows(takes, j, k - 1, slotTime, half);
    } else {
      EarliesFirst(takes, k - 1, j, slotTime, half);
    }
  }

  /** The allocator after the first `k` takes. */
  ghost predicate Laid(a: Allocator, takes: seq<Take>, k: nat, slotTime: u32, half: u32)
    requires k <= |takes|
  {
    var m := Earlies(takes, k, slotTime, half);
    var w := a.window;
    && w.slotTime == slotTime && w.half == a.half == half && w.width == 15 * slotTime
    && w.placed == m && w.cursor == Cursor(takes, m, slotTime, half) && (w.lastPlaced.None? <==> m == 0)
    && (m > 0 ==> w.lastPlaced.value == Cursor(takes, m - 1, slotTime, half))
    && a.nextIndex == k && (a.ladderStart.None? <==> m == k)
    && (m < k ==> a.ladderStart.value == LadderFrom(takes, m, slotTime, half))
  }

  /** No sum of the formula leaves 32 bits. */
  lemma RoomyRungsFit(slotTime: u32, half: u32, rung: nat, n: nat)
    requires Roomy(slotTime, half, n) && rung <= n
    ensures 0 <= rung * half && 16 * slotTime + half + rung * half < U32_SPAN
  {
    RungsFit(16 * slotTime, half, rung, n);
  }

  lemma LadderNear(takes: seq<Take>, k: nat, slotTime: nat, half: nat)
    requires k < |takes|
    ensures LadderFrom(takes, Earlies(takes, k, slotTime, half), slotTime, half) <= 16 * slotTime + half
    ensures Early(takes, k, slotTime, half) ==> Cursor(takes, k + 1, slotTime, half) <= 16 * slotTime + half
  {
    var m := Earlies(takes, k, slotTime, half);
    assert m > 0 ==> Early(takes, m - 1, slotTime, half);
    hide Earlies;
  }

  lemma RungsFit(floor: nat, half: nat, rung: nat, n: nat)
    requires rung <= n && floor + (n + 1) * half < U32_SPAN
    ensures 0 <= rung * half && floor + half + rung * half < U32_SPAN
  {
    Product(rung, n, half);
    assert (n + 1) * half == n * half + half;
  }

  /** Which part of the plan take `k` comes from, in the allocator's terms. */
  lemma StepFrom(a: Allocator, takes: seq<Take>, k: nat, slotTime: u32, half: u32)
    requires Roomy(slotTime, half, |takes|) && LateLast(takes) && k < |takes|
    requires Laid(a, takes, k, slotTime, half)
    ensures a.FromWindow(takes[k]) <==> Early(takes, k, slotTime, half)
    ensures a.window.FirstRungMs() == LadderFrom(takes, Earlies(takes, k, slotTime, half), slotTime, half)
  {
    var m := Earlies(takes, k, slotTime, half);
    LadderNear(takes, k, slotTime, half);
    RoomyRungsFit(slotTime, half, k - m, |takes|);
    hide Roomy;
    if m < k {
      EarliesFirst(takes, k, m, slotTime, half);
      EarliesFirst(takes, k + 1, k, slotTime, half);
      EarliesFirst(takes, k + 1, m, slotTime, half);
      assert takes[m] == LateRung ==> takes[k] == LateRung;
    }
    assert a.FromWindow(takes[k]) <==> Early(takes, k, slotTime, half);
    hide Early, LateLast;
  }

  lemma StepIsLaid(a: Allocator, takes: seq<Take>, k: nat, slotTime: u32, half: u32)
    requires Roomy(slotTime, half, |takes|) && LateLast(takes) && k < |takes|
    requires Laid(a, takes, k, slotTime, half)
    ensures Laid(a.After(takes[k]), takes, k + 1, slotTime, half)
    ensures a.Position(takes[k]) == PositionOf(takes, k, slotTime, half)
  {
    var m := Earlies(takes, k, slotTime, half);
    StepFrom(a, takes, k, slotTime, half);
    LadderNear(takes, k, slotTime, half);
    RoomyRungsFit(slotTime, half, k - m, |takes|);
    if m < k {
      EarliesFirst(takes, k, m, slotTime, half);
      EarliesFirst(takes, k + 1, k, slotTime, half);
      EarliesFirst(takes, k + 1, m, slotTime, half);
    }
    hide Early, LadderFrom, LateLast, Roomy, Allocator.FromWindow, Window.FirstRungMs;
  }

  lemma NothingLaid(takes: seq<Take>, slotTime: u32, half: u32)
    requires Roomy(slotTime, half, |takes|)
    ensures Laid(NewAllocator(slotTime, half), takes, 0, slotTime, half)
  {
    assert RelayFloorMs(slotTime) == 16 * slotTime;
    assert (|takes| + 1) * half >= 0;
  }

  lemma {:induction false} AllLaid(takes: seq<Take>, k: nat, slotTime: u32, half: u32)
    requires Roomy(slotTime, half, |takes|) && LateLast(takes) && k <= |takes|
    ensures Laid(Advance(NewAllocator(slotTime, half), takes[..k]), takes, k, slotTime, half)
  {
    hide Laid, Roomy, LateLast;
    if k == 0 {
      NothingLaid(takes, slotTime, half);
    } else {
      AllLaid(takes, k - 1, slotTime, half);
      assert takes[..k][..k - 1] == takes[..k - 1];
      StepIsLaid(Advance(NewAllocator(slotTime, half), takes[..k - 1]), takes, k - 1, slotTime, half);
    }
  }

  /** Every take receives the position of the formula. */
  lemma PositionsByFormula(takes: seq<Take>, k: nat, slotTime: u32, half: u32)
    requires Roomy(slotTime, half, |takes|) && LateLast(takes) && k < |takes|
    ensures Assign(NewAllocator(slotTime, half), takes)[k] == PositionOf(takes, k, slotTime, half)
  {
    hide Laid, Roomy, LateLast;
    AllLaid(takes, k, slotTime, half);
    AssignAt(NewAllocator(slotTime, half), takes, k);
    StepIsLaid(Advance(NewAllocator(slotTime, half), takes[..k]), takes, k, slotTime, half);
  }
}

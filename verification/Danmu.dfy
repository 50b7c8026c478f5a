/** The rolling-row packer of the danmu renderer: online interval partitioning.
    Times are counted in eighths of the comment clock, so `len * speed / 8 + 1` is an integer. */
module Danmu {
  const ROLL_SPEED_MIN: int := 10
  const ROLL_SPEED_MAX: int := 14

  /** One fetched comment; position 0 rolls, any other stays in place. */
  datatype Comment = Comment(rawTime: int, text: string, position: int, banned: bool)

  /** Where a rolling comment went: its row, the row's busy interval [from, until), its rendering. */
  datatype Placed = Placed(channel: nat, from: int, until: int, endTime: int, height: int)

  predicate Disjoint(p: Placed, q: Placed) {
    p.until <= q.from || q.until <= p.from
  }

  function Covering(placed: seq<Placed>, instant: int): set<nat> {
    set k: nat | k < |placed| && placed[k].from <= instant < placed[k].until
  }

  /** No row ever holds two comments at once. */
  ghost predicate RowsDisjoint(placed: seq<Placed>) {
    forall j, k :: 0 <= j < k < |placed| && placed[j].channel == placed[k].channel ==> Disjoint(placed[j], placed[k])
  }

  /** Some assignment of the same intervals to `m` rows that never overlaps either. */
  ghost predicate ValidColouring(placed: seq<Placed>, colour: seq<nat>, m: nat) {
    && |colour| == |placed|
    && (forall k :: 0 <= k < |colour| ==> colour[k] < m)
    && (forall j, k :: 0 <= j < k < |colour| && colour[j] == colour[k] ==> Disjoint(placed[j], placed[k]))
  }

  lemma {:induction false} Pigeonhole(ks: set<nat>, colour: seq<nat>, m: nat)
    requires forall k :: k in ks ==> k < |colour| && colour[k] < m
    requires forall j, k :: j in ks && k in ks && colour[j] == colour[k] ==> j == k
    ensures |ks| <= m
  {
    if k :| k in ks && colour[k] == m - 1 {
      Pigeonhole(ks - {k}, colour, m - 1);
      assert ks == (ks - {k}) + {k};
    } else if m > 0 {
      Pigeonhole(ks, colour, m - 1);
    } else {
      assert ks == {};
    }
  }

  predicate HasRow(ks: set<nat>, placed: seq<Placed>, row: int) {
    exists k :: k in ks && k < |placed| && placed[k].channel == row
  }

  lemma {:induction false} OneEach(ks: set<nat>, placed: seq<Placed>, m: nat)
    requires forall row :: 0 <= row < m ==> HasRow(ks, placed, row)
    ensures |ks| >= m
  {
    if m > 0 {
      assert HasRow(ks, placed, m - 1);
      var k :| k in ks && k < |placed| && placed[k].channel == m - 1;
      forall row | 0 <= row < m - 1 ensures HasRow(ks - {k}, placed, row) {
        assert HasRow(ks, placed, row);
        var j :| j in ks && j < |placed| && placed[j].channel == row;
        assert j in ks - {k};
      }
      OneEach(ks - {k}, placed, m - 1);
    }
  }

  /** Intervals with a common instant need as many rows as there are of them, in any colouring. */
  lemma DepthNeedsRows(placed: seq<Placed>, colour: seq<nat>, m: nat, instant: int)
    requires ValidColouring(placed, colour, m)
    ensures |Covering(placed, instant)| <= m
  {
    Pigeonhole(Covering(placed, instant), colour, m);
  }

  /** The first row free at `now`, or one past the last when none is. */
  predicate FirstFit(rollChannel: seq<int>, now: int, channel: nat) {
    && channel <= |rollChannel|
    && (channel < |rollChannel| ==> rollChannel[channel] <= now)
    && forall j :: 0 <= j < channel ==> now < rollChannel[j]
  }

  /** The row a comment at `now` goes to. */
  function Fit(rollChannel: seq<int>, now: int): (channel: nat)
    ensures FirstFit(rollChannel, now, channel)
  {
    if rollChannel == [] || rollChannel[0] <= now then 0
    else
      var channel := 1 + Fit(rollChannel[1..], now);
      assert forall j :: 1 <= j < channel ==> rollChannel[j] == rollChannel[1..][j - 1];
      channel
  }

  lemma FirstFitIsUnique(rollChannel: seq<int>, now: int, i: nat, j: nat)
    requires FirstFit(rollChannel, now, i) && FirstFit(rollChannel, now, j)
    ensures i == j
  {
  }

  /** Some comment on `row` ends when the row is free. */
  predicate EndsRow(placed: seq<Placed>, row: int, free: int) {
    exists k :: 0 <= k < |placed| && placed[k].channel == row && placed[k].until == free
  }

  /** Rows are disjoint, are free only after all their comments, and free with the last of them. */
  ghost predicate RowsUsed(placed: seq<Placed>, rollChannel: seq<int>) {
    && RowsDisjoint(placed)
    && (forall k :: 0 <= k < |placed| ==>
          && placed[k].channel < |rollChannel| && placed[k].from < placed[k].until <= rollChannel[placed[k].channel]
          && placed[k].height == 54 * placed[k].channel + 27)
    && (forall row :: 0 <= row < |rollChannel| ==> EndsRow(placed, row, rollChannel[row]))
  }

  /** What holds as long as comments come in time order, the newest at `now` or before. */
  ghost predicate Tight(placed: seq<Placed>, rows: nat, peak: int, now: int) {
    && (forall k :: 0 <= k < |placed| ==> placed[k].from <= now)
    && |Covering(placed, peak)| >= rows
  }

  function RowsAfter(before: seq<int>, p: Placed): seq<int> {
    if p.channel < |before| then before[p.channel := p.until] else before + [p.until]
  }

  lemma RowsUsedStep(placed: seq<Placed>, before: seq<int>, p: Placed)
    requires RowsUsed(placed, before)
    requires FirstFit(before, p.from, p.channel) && p.from < p.until && p.height == 54 * p.channel + 27
    ensures RowsUsed(placed + [p], RowsAfter(before, p))
  {
    var all, after := placed + [p], RowsAfter(before, p);
    forall row | 0 <= row < |after| ensures EndsRow(all, row, after[row]) {
      if row == p.channel {
        assert all[|placed|] == p;
      } else {
        assert EndsRow(placed, row, before[row]);
        var k :| 0 <= k < |placed| && placed[k].channel == row && placed[k].until == before[row];
        assert all[k] == placed[k];
      }
    }
  }

  /** A row is opened only when the new comment meets one running comment on every other row. */
  lemma OpeningIsForced(placed: seq<Placed>, before: seq<int>, p: Placed)
    requires RowsUsed(placed, before) && FirstFit(before, p.from, p.channel) && p.from < p.until
    requires p.channel == |before|
    requires forall k :: 0 <= k < |placed| ==> placed[k].from <= p.from
    ensures |Covering(placed + [p], p.from)| >= |before| + 1
  {
    var all := placed + [p];
    var met := Covering(all, p.from);
    forall row | 0 <= row < |before| + 1 ensures HasRow(met, all, row) {
      if row == |before| {
        assert all[|placed|] == p && |placed| in met;
      } else {
        assert EndsRow(placed, row, before[row]);
        var k :| 0 <= k < |placed| && placed[k].channel == row && placed[k].until == before[row];
        assert all[k] == placed[k] && k in met;
      }
    }
    OneEach(met, all, |before| + 1);
  }

  lemma CoveringGrows(placed: seq<Placed>, p: Placed, instant: int)
    ensures |Covering(placed + [p], instant)| >= |Covering(placed, instant)|
  {
    var small, large := Covering(placed, instant), Covering(placed + [p], instant);
    forall k | k in small ensures k in large {
      assert (placed + [p])[k] == placed[k];
    }
    assert large == small + (large - small);
  }

  lemma TightStep(placed: seq<Placed>, before: seq<int>, p: Placed, peak: int)
    requires RowsUsed(placed, before) && FirstFit(before, p.from, p.channel) && p.from < p.until
    requires Tight(placed, |before|, peak, p.from)
    ensures Tight(placed + [p], |RowsAfter(before, p)|, if p.channel == |before| then p.from else peak, p.from)
  {
    if p.channel == |before| {
      OpeningIsForced(placed, before, p);
    } else {
      CoveringGrows(placed, p, peak);
    }
  }

  lemma PlaceStep(placed: seq<Placed>, before: seq<int>, p: Placed, peak: int)
    requires RowsUsed(placed, before)
    requires FirstFit(before, p.from, p.channel) && p.from < p.until && p.height == 54 * p.channel + 27
    ensures RowsUsed(placed + [p], RowsAfter(before, p))
    ensures Tight(placed, |before|, peak, p.from) ==>
      Tight(placed + [p], |RowsAfter(before, p)|, if p.channel == |before| then p.from else peak, p.from)
  {
    RowsUsedStep(placed, before, p);
    if Tight(placed, |before|, peak, p.from) {
      TightStep(placed, before, p, peak);
    }
  }

  /** How long a comment of this length keeps a row of this speed busy. */
  function Width(text: string, speed: int): (width: int)
    ensures speed >= 0 ==> width >= 8
  {
    |text| * speed + 8
  }

  /** The packer's lists, and the comments placed so far. */
  datatype Packing = Packing(rollChannel: seq<int>, rollTime: seq<int>, placed: seq<Placed>) {
    predicate Paired() { |rollChannel| == |rollTime| }
  }

  /** First fit, or a new row with the drawn speed; the row is busy for as long as the text is. */
  function Placing(s: Packing, rawTime: int, startTime: int, text: string, drawn: int): (t: Packing)
    requires s.Paired()
    ensures t.Paired() && |t.placed| == |s.placed| + 1
  {
    var i := Fit(s.rollChannel, 8 * rawTime);
    var speeds := if i == |s.rollTime| then s.rollTime + [drawn] else s.rollTime;
    var p := Placed(i, 8 * rawTime, 8 * rawTime + Width(text, speeds[i]), startTime + speeds[i], 54 * i + 27);
    Packing(RowsAfter(s.rollChannel, p), speeds, s.placed + [p])
  }

  ghost predicate SpeedsValid(rollTime: seq<int>) {
    forall i :: 0 <= i < |rollTime| ==> ROLL_SPEED_MIN <= rollTime[i] <= ROLL_SPEED_MAX
  }

  function PeakAfter(s: Packing, p: Placed, peak: int): int { if p.channel == |s.rollChannel| then p.from else peak }

  lemma PlacingKeeps(s: Packing, peak: int, rawTime: int, startTime: int, text: string, drawn: int)
    requires s.Paired() && SpeedsValid(s.rollTime) && RowsUsed(s.placed, s.rollChannel)
    requires ROLL_SPEED_MIN <= drawn <= ROLL_SPEED_MAX
    ensures var t := Placing(s, rawTime, startTime, text, drawn);
      && SpeedsValid(t.rollTime) && RowsUsed(t.placed, t.rollChannel)
      && (Tight(s.placed, |s.rollChannel|, peak, 8 * rawTime) ==>
            Tight(t.placed, |t.rollChannel|, PeakAfter(s, t.placed[|s.placed|], peak), 8 * rawTime))
  {
    var p := Placing(s, rawTime, startTime, text, drawn).placed[|s.placed|];
    PlaceStep(s.placed, s.rollChannel, p, peak);
  }

  /** What the packer does with one fetched comment. */
  function Next(s: Packing, c: Comment, drawn: int): (t: Packing)
    requires s.Paired()
    ensures t.Paired()
  {
    if !c.banned && c.position == 0 then Placing(s, c.rawTime, c.rawTime / 10, c.text, drawn) else s
  }

  /** Where all comments go; each new row takes the next draw. */
  function Pack(comments: seq<Comment>, draws: nat -> int): (s: Packing)
    ensures s.Paired()
  {
    if comments == [] then Packing([], [], [])
    else
      var s := Pack(comments[..|comments| - 1], draws);
      Next(s, comments[|comments| - 1], draws(|s.rollTime|))
  }

  class RollPacker {
    var rollChannel: seq<int>   // when each row is free again
    var rollTime: seq<int>      // the speed drawn for each row
    ghost var placed: seq<Placed>
    ghost var peak: int         // an instant that needed the newest row

    ghost predicate Valid()
      reads this
    {
      && |rollChannel| == |rollTime|
      && SpeedsValid(rollTime)
      && RowsUsed(placed, rollChannel)
    }

    ghost function State(): Packing
      reads this
    {
      Packing(rollChannel, rollTime, placed)
    }

    constructor ()
      ensures Valid() && placed == [] && rollChannel == [] && rollTime == []
    {
      rollChannel, rollTime, placed, peak := [], [], [], 0;
    }

    /** `_allocate_roll`: first fit, else a new row with the drawn speed. Rows stay disjoint in any
        order of comments; in time order, the number of rows stays the depth at some instant. */
    method Allocate(rawTime: int, startTime: int, text: string, drawn: int) returns (endTime: int, height: int)
      requires Valid() && ROLL_SPEED_MIN <= drawn <= ROLL_SPEED_MAX
      modifies this
      ensures Valid() && State() == Placing(old(State()), rawTime, startTime, text, drawn)
      ensures endTime == placed[|old(placed)|].endTime && height == placed[|old(placed)|].height
      ensures Tight(old(placed), |old(rollChannel)|, old(peak), 8 * rawTime) ==>
        Tight(placed, |rollChannel|, peak, 8 * rawTime)
    {
      ghost var before, next := State(), Placing(State(), rawTime, startTime, text, drawn);
      ghost var p := next.placed[|placed|];
      PlacingKeeps(before, peak, rawTime, startTime, text, drawn);
      var now := 8 * rawTime;
      var i := FirstFree(now);
      FirstFitIsUnique(rollChannel, now, i, Fit(rollChannel, now));
      if i == |rollChannel| {
        rollTime := rollTime + [drawn];
        rollChannel := rollChannel + [0];
      }
      rollChannel := rollChannel[i := now + Width(text, rollTime[i])];
      height := i * 54 + 27;
      endTime := startTime + rollTime[i];
      assert rollTime == next.rollTime;
      assert rollChannel == next.rollChannel;
      peak := PeakAfter(before, p, peak);
      placed := placed + [p];
    }

    /** The scan for a row that is free: the first one, or one past the last. */
    method FirstFree(now: int) returns (i: nat)
      ensures FirstFit(rollChannel, now, i)
    {
      i := 0;
      while i < |rollChannel|
        invariant 0 <= i <= |rollChannel|
        invariant forall j :: 0 <= j < i ==> now < rollChannel[j]
      {
        if rollChannel[i] <= now {
          break;
        }
        i := i + 1;
      }
    }
  }

  // ------------------------------------------------------------------ the rendering loop

  /** The comments that roll, in the order they were fetched. */
  function Rolling(comments: seq<Comment>): seq<Comment> {
    if comments == [] then []
    else
      var c := comments[|comments| - 1];
      Rolling(comments[..|comments| - 1]) + if c.position == 0 && !c.banned then [c] else []
  }

  ghost predicate TimeSorted(comments: seq<Comment>) {
    forall j, k :: 0 <= j <= k < |comments| ==> comments[j].rawTime <= comments[k].rawTime
  }

  /** The interval and rendering a rolling comment gets on its row. */
  predicate Renders(c: Comment, p: Placed, rollTime: seq<int>) {
    && p.channel < |rollTime|
    && p.from == 8 * c.rawTime
    && p.until == p.from + |c.text| * rollTime[p.channel] + 8
    && p.endTime == c.rawTime / 10 + rollTime[p.channel]
  }

  /** Every rolling comment, in order, has its interval and rendering. */
  ghost predicate RendersAll(rolling: seq<Comment>, placed: seq<Placed>, rollTime: seq<int>) {
    |placed| == |rolling| && forall k :: 0 <= k < |placed| ==> Renders(rolling[k], placed[k], rollTime)
  }

  lemma RendersStep(rolling: seq<Comment>, placed: seq<Placed>, before: seq<int>, c: Comment, p: Placed,
                    after: seq<int>)
    requires RendersAll(rolling, placed, before) && Renders(c, p, after)
    requires after == before || (|after| == |before| + 1 && after[..|before|] == before)
    ensures RendersAll(rolling + [c], placed + [p], after)
  {
    forall k | 0 <= k < |placed| ensures Renders(rolling[k], placed[k], after) {
      assert Renders(rolling[k], placed[k], before);
    }
  }

  lemma RowsHaveOwnHeights(placed: seq<Placed>, rollChannel: seq<int>, j: nat, k: nat)
    requires RowsUsed(placed, rollChannel) && j < |placed| && k < |placed|
    ensures placed[j].height == placed[k].height <==> placed[j].channel == placed[k].channel
  {
    assert placed[j].height == 54 * placed[j].channel + 27;
    assert placed[k].height == 54 * placed[k].channel + 27;
  }

  /** The number of rows is the largest number of comments running at one instant, and no
      assignment of the same intervals gets by with fewer rows. */
  ghost predicate Optimal(placed: seq<Placed>, rows: nat) {
    && (exists instant :: |Covering(placed, instant)| == rows)
    && (forall instant :: |Covering(placed, instant)| <= rows)
    && (forall colour, m: nat | ValidColouring(placed, colour, m) :: rows <= m)
  }

  lemma TightIsOptimal(placed: seq<Placed>, rollChannel: seq<int>, peak: int)
    requires RowsUsed(placed, rollChannel) && |Covering(placed, peak)| >= |rollChannel|
    ensures Optimal(placed, |rollChannel|)
  {
    var own := seq(|placed|, k requires 0 <= k < |placed| => placed[k].channel);
    assert ValidColouring(placed, own, |rollChannel|);
    forall instant ensures |Covering(placed, instant)| <= |rollChannel| {
      DepthNeedsRows(placed, own, |rollChannel|, instant);
    }
    forall colour, m: nat | ValidColouring(placed, colour, m) ensures |rollChannel| <= m {
      DepthNeedsRows(placed, colour, m, peak);
    }
  }

  /** Where the packer stands after the rolling comments `rolling`. */
  ghost predicate Progress(rolling: seq<Comment>, placed: seq<Placed>, rows: nat, rollTime: seq<int>, peak: int) {
    && RendersAll(rolling, placed, rollTime)
    && (TimeSorted(rolling) ==>
          if rolling == [] then rows == 0 else Tight(placed, rows, peak, 8 * rolling[|rolling| - 1].rawTime))
  }

  lemma TightSoFar(rolling: seq<Comment>, placed: seq<Placed>, rows: nat, rollTime: seq<int>, peak: int, c: Comment)
    requires Progress(rolling, placed, rows, rollTime, peak) && TimeSorted(rolling + [c])
    ensures TimeSorted(rolling) && Tight(placed, rows, peak, 8 * c.rawTime)
  {
    var all := rolling + [c];
    assert forall k :: 0 <= k < |rolling| ==> all[k] == rolling[k];
    if rolling != [] {
      assert all[|rolling| - 1].rawTime <= all[|rolling|].rawTime;
    }
  }

  lemma PlacingRenders(s: Packing, rolling: seq<Comment>, c: Comment, drawn: int)
    requires s.Paired() && RendersAll(rolling, s.placed, s.rollTime)
    ensures var t := Placing(s, c.rawTime, c.rawTime / 10, c.text, drawn);
      RendersAll(rolling + [c], t.placed, t.rollTime)
  {
    var t := Placing(s, c.rawTime, c.rawTime / 10, c.text, drawn);
    var p := t.placed[|s.placed|];
    assert t.placed == s.placed + [p];
    RendersStep(rolling, s.placed, s.rollTime, c, p, t.rollTime);
  }

  /** One pass of the loop of `_write_ass`, as far as rows are concerned. */
  method PackNext(packer: RollPacker, ghost rolling: seq<Comment>, c: Comment, drawn: int)
    requires packer.Valid() && ROLL_SPEED_MIN <= drawn <= ROLL_SPEED_MAX
    requires Progress(rolling, packer.placed, |packer.rollChannel|, packer.rollTime, packer.peak)
    modifies packer
    ensures packer.Valid() && packer.State() == Next(old(packer.State()), c, drawn)
    ensures Progress(if !c.banned && c.position == 0 then rolling + [c] else rolling,
                     packer.placed, |packer.rollChannel|, packer.rollTime, packer.peak)
  {
    if !c.banned && c.position == 0 {
      ghost var before := packer.State();
      if TimeSorted(rolling + [c]) {
        TightSoFar(rolling, before.placed, |before.rollChannel|, before.rollTime, packer.peak, c);
      }
      var _, _ := packer.Allocate(c.rawTime, c.rawTime / 10, c.text, drawn);
      PlacingRenders(before, rolling, c, drawn);
      assert (rolling + [c])[|rolling|] == c;
    }
  }

  lemma OneMore(comments: seq<Comment>, i: nat, draws: nat -> int)
    requires i < |comments|
    ensures var s, c := Pack(comments[..i], draws), comments[i];
      && Pack(comments[..i + 1], draws) == Next(s, c, draws(|s.rollTime|))
      && Rolling(comments[..i + 1]) ==
           if !c.banned && c.position == 0 then Rolling(comments[..i]) + [c] else Rolling(comments[..i])
  {
    assert comments[..i + 1][..i] == comments[..i];
  }

  ghost predicate DrawsValid(draws: nat -> int) {
    forall n :: ROLL_SPEED_MIN <= draws(n) <= ROLL_SPEED_MAX
  }

  /** The loop of `_write_ass` over the rolling comments; `draws` is the random stream. */
  method PackAll(comments: seq<Comment>, draws: nat -> int) returns (packer: RollPacker)
    requires DrawsValid(draws)
    ensures packer.Valid() && packer.State() == Pack(comments, draws)
    ensures RendersAll(Rolling(comments), packer.placed, packer.rollTime)
    ensures TimeSorted(Rolling(comments)) ==> Optimal(packer.placed, |packer.rollChannel|)
  {
    packer := new RollPacker();
    for i := 0 to |comments|
      invariant fresh(packer) && packer.Valid() && packer.State() == Pack(comments[..i], draws)
      invariant Progress(Rolling(comments[..i]), packer.placed, |packer.rollChannel|, packer.rollTime, packer.peak)
    {
      OneMore(comments, i, draws);
      PackNext(packer, Rolling(comments[..i]), comments[i], draws(|packer.rollTime|));
    }
    assert comments[..|comments|] == comments;
    if TimeSorted(Rolling(comments)) {
      TightIsOptimal(packer.placed, packer.rollChannel, packer.peak);
    }
  }

  lemma LateThenEarly(draws: nat -> int)
    requires DrawsValid(draws)
    ensures var s := Pack([Comment(100, "", 0, false), Comment(0, "", 0, false)], draws);
      |s.rollChannel| == 2 && s.placed == [Placed(0, 800, 808, 10 + draws(0), 27), Placed(1, 0, 8, draws(1), 81)]
  {
    var late, early := Comment(100, "", 0, false), Comment(0, "", 0, false);
    assert [late, early][..1] == [late] && [late][..0] == [];
    assert Pack([], draws) == Packing([], [], []);
    var first := Pack([late], draws);
    assert first == Next(Packing([], [], []), late, draws(0));
    assert first.rollChannel == [808] && first.placed == [Placed(0, 800, 808, 10 + draws(0), 27)];
    var s := Pack([late, early], draws);
    assert s == Next(first, early, draws(1));
    assert Fit([808], 0) == 1;
    assert s.placed == first.placed + [Placed(1, 0, 8, draws(1), 81)];
  }

  /** Time order matters: of two comments that never meet, fetched the later one first, the packer
      opens two rows, whatever it draws, though one row would do. */
  lemma UnsortedIsNotOptimal(draws: nat -> int)
    requires DrawsValid(draws)
    ensures var s := Pack([Comment(100, "", 0, false), Comment(0, "", 0, false)], draws);
      && |s.rollChannel| == 2 && RowsDisjoint(s.placed) && Covering(s.placed, 800) == {0}
      && ValidColouring(s.placed, [0, 0], 1) && !Optimal(s.placed, 2)
  {
    LateThenEarly(draws);
    TwoApart([Placed(0, 800, 808, 10 + draws(0), 27), Placed(1, 0, 8, draws(1), 81)]);
  }

  lemma TwoApart(placed: seq<Placed>)
    requires |placed| == 2 && placed[0].channel != placed[1].channel
    requires placed[1].from < placed[1].until <= placed[0].from == 800 < placed[0].until
    ensures RowsDisjoint(placed) && Covering(placed, 800) == {0}
    ensures ValidColouring(placed, [0, 0], 1) && !Optimal(placed, 2)
  {
    assert Covering(placed, 800) == {0};
    assert ValidColouring(placed, [0, 0], 1);
  }

  // ------------------------------------------------------------------ exactly when is packing optimal?

  /** What `PackAll` keeps; `peak` is an instant that needed the newest row. */
  ghost predicate Kept(s: Packing, rolling: seq<Comment>, peak: int) {
    && s.Paired() && SpeedsValid(s.rollTime) && RowsUsed(s.placed, s.rollChannel)
    && Progress(rolling, s.placed, |s.rollChannel|, s.rollTime, peak)
  }

  lemma KeptStep(s: Packing, rolling: seq<Comment>, peak: int, c: Comment, drawn: int)
    requires Kept(s, rolling, peak) && ROLL_SPEED_MIN <= drawn <= ROLL_SPEED_MAX
    ensures var t := Placing(s, c.rawTime, c.rawTime / 10, c.text, drawn);
      Kept(t, rolling + [c], PeakAfter(s, t.placed[|s.placed|], peak))
  {
    if TimeSorted(rolling + [c]) {
      TightSoFar(rolling, s.placed, |s.rollChannel|, s.rollTime, peak, c);
    }
    PlacingKeeps(s, peak, c.rawTime, c.rawTime / 10, c.text, drawn);
    PlacingRenders(s, rolling, c, drawn);
    assert (rolling + [c])[|rolling|] == c;
  }

  lemma {:induction false} PackKeeps(comments: seq<Comment>, draws: nat -> int) returns (peak: int)
    requires DrawsValid(draws)
    ensures Kept(Pack(comments, draws), Rolling(comments), peak)
  {
    peak := 0;
    if comments != [] {
      var init, c := comments[..|comments| - 1], comments[|comments| - 1];
      peak := PackKeeps(init, draws);
      if !c.banned && c.position == 0 {
        var s, drawn := Pack(init, draws), draws(|Pack(init, draws).rollTime|);
        KeptStep(s, Rolling(init), peak, c, drawn);
        peak := PeakAfter(s, Placing(s, c.rawTime, c.rawTime / 10, c.text, drawn).placed[|s.placed|], peak);
      }
    }
  }

  /** An earlier comment still runs on `row` at this instant. */
  predicate Busy(placed: seq<Placed>, k: nat, row: nat, instant: int) {
    exists j :: 0 <= j < k < |placed| && placed[j].channel == row && instant < placed[j].until
  }

  /** Comment `k` went to the lowest row it could: on every lower one an earlier comment still runs. */
  ghost predicate OnLowestRow(placed: seq<Placed>, k: nat)
    requires k < |placed|
  {
    forall row: nat | row < placed[k].channel :: Busy(placed, k, row, placed[k].from)
  }

  lemma BusyStays(placed: seq<Placed>, p: Placed, k: nat)
    requires k < |placed| && OnLowestRow(placed, k)
    ensures OnLowestRow(placed + [p], k)
  {
    var all := placed + [p];
    forall row: nat | row < all[k].channel ensures Busy(all, k, row, all[k].from) {
      assert Busy(placed, k, row, placed[k].from);
      var j :| 0 <= j < k && placed[j].channel == row && placed[k].from < placed[j].until;
      assert all[j] == placed[j];
    }
  }

  lemma NewestOnLowestRow(placed: seq<Placed>, before: seq<int>, p: Placed)
    requires RowsUsed(placed, before) && FirstFit(before, p.from, p.channel)
    ensures OnLowestRow(placed + [p], |placed|)
  {
    var all := placed + [p];
    forall row: nat | row < p.channel ensures Busy(all, |placed|, row, p.from) {
      assert EndsRow(placed, row, before[row]);
      var j :| 0 <= j < |placed| && placed[j].channel == row && placed[j].until == before[row];
      assert all[j] == placed[j];
    }
  }

  ghost predicate OnLowestRows(s: Packing, draws: nat -> int) {
    && (forall k :: 0 <= k < |s.placed| ==> OnLowestRow(s.placed, k))
    && (forall i :: 0 <= i < |s.rollTime| ==> s.rollTime[i] == draws(i))
  }

  lemma OnLowestRowsStep(s: Packing, c: Comment, draws: nat -> int)
    requires s.Paired() && RowsUsed(s.placed, s.rollChannel) && OnLowestRows(s, draws)
    ensures OnLowestRows(Placing(s, c.rawTime, c.rawTime / 10, c.text, draws(|s.rollTime|)), draws)
  {
    var t := Placing(s, c.rawTime, c.rawTime / 10, c.text, draws(|s.rollTime|));
    var p := t.placed[|s.placed|];
    assert t.placed == s.placed + [p];
    NewestOnLowestRow(s.placed, s.rollChannel, p);
    forall k: nat | k < |s.placed| ensures OnLowestRow(t.placed, k) {
      BusyStays(s.placed, p, k);
    }
  }

  /** In any order of comments each goes to the lowest row free of earlier ones, and row `i` runs at
      the speed of draw `i`. */
  lemma {:induction false} PackOnLowestRows(comments: seq<Comment>, draws: nat -> int)
    requires DrawsValid(draws)
    ensures OnLowestRows(Pack(comments, draws), draws)
  {
    if comments != [] {
      var init, c := comments[..|comments| - 1], comments[|comments| - 1];
      PackOnLowestRows(init, draws);
      var _ := PackKeeps(init, draws);
      if !c.banned && c.position == 0 {
        OnLowestRowsStep(Pack(init, draws), c, draws);
      }
    }
  }

  lemma PackIsOptimal(comments: seq<Comment>, draws: nat -> int)
    requires DrawsValid(draws) && TimeSorted(Rolling(comments))
    ensures Optimal(Pack(comments, draws).placed, |Pack(comments, draws).rollChannel|)
  {
    var peak := PackKeeps(comments, draws);
    TightIsOptimal(Pack(comments, draws).placed, Pack(comments, draws).rollChannel, peak);
  }

  /** Rolling comments with these raw times and texts. */
  function Timed(times: seq<int>, texts: seq<string>): (comments: seq<Comment>)
    requires |texts| == |times|
    ensures |comments| == |times|
  {
    seq(|times|, i requires 0 <= i < |times| => Comment(times[i], texts[i], 0, false))
  }

  lemma {:induction false} AllRoll(comments: seq<Comment>)
    requires forall i :: 0 <= i < |comments| ==> comments[i].position == 0 && !comments[i].banned
    ensures Rolling(comments) == comments
  {
    if comments != [] {
      AllRoll(comments[..|comments| - 1]);
    }
  }

  ghost predicate SortedTimes(times: seq<int>) {
    forall i, j :: 0 <= i <= j < |times| ==> times[i] <= times[j]
  }

  ghost predicate OptimalFor(times: seq<int>, texts: seq<string>, draws: nat -> int)
    requires |texts| == |times|
  {
    var s := Pack(Timed(times, texts), draws);
    Optimal(s.placed, |s.rollChannel|)
  }

  /** Whatever the texts and the draws, the packing is optimal at every moment of the rendering. */
  ghost predicate AlwaysOptimal(times: seq<int>) {
    forall n, texts, draws | 0 <= n <= |times| && |texts| == n && DrawsValid(draws) ::
      OptimalFor(times[..n], texts, draws)
  }

  /** Every comment begins before each earlier one has left its row, at the slowest speed. */
  predicate Crowded(comments: seq<Comment>) {
    forall i, j :: 0 <= i < j < |comments| ==>
      8 * comments[j].rawTime < 8 * comments[i].rawTime + Width(comments[i].text, ROLL_SPEED_MIN)
  }

  /** Then each opens a row of its own. */
  ghost predicate OneRowEach(comments: seq<Comment>, s: Packing) {
    && |s.placed| == |comments| == |s.rollChannel|
    && forall i :: 0 <= i < |comments| ==>
         && s.placed[i].channel == i && s.placed[i].from == 8 * comments[i].rawTime
         && s.placed[i].until == s.rollChannel[i] >=
              8 * comments[i].rawTime + Width(comments[i].text, ROLL_SPEED_MIN)
         && (comments[i].text == "" ==> s.placed[i].until == 8 * comments[i].rawTime + 8)
  }

  lemma WidthGrows(text: string, speed: int)
    requires speed >= ROLL_SPEED_MIN
    ensures Width(text, speed) >= Width(text, ROLL_SPEED_MIN) && (text == "" ==> Width(text, speed) == 8)
  {
    assert |text| * speed == |text| * ROLL_SPEED_MIN + |text| * (speed - ROLL_SPEED_MIN);
  }

  lemma {:induction false} CrowdedPacks(comments: seq<Comment>, draws: nat -> int)
    requires DrawsValid(draws) && Crowded(comments)
    requires forall i :: 0 <= i < |comments| ==> comments[i].position == 0 && !comments[i].banned
    ensures OneRowEach(comments, Pack(comments, draws))
  {
    if comments != [] {
      var init, c := comments[..|comments| - 1], comments[|comments| - 1];
      CrowdedPacks(init, draws);
      var s := Pack(init, draws);
      assert forall i :: 0 <= i < |init| ==> 8 * c.rawTime < s.rollChannel[i];
      FirstFitIsUnique(s.rollChannel, 8 * c.rawTime, |init|, Fit(s.rollChannel, 8 * c.rawTime));
      WidthGrows(c.text, draws(|s.rollTime|));
    }
  }

  /** The place where the times first go down. */
  lemma {:induction false} FirstDescent(times: seq<int>) returns (j: nat)
    requires !SortedTimes(times)
    ensures 0 < j < |times| && SortedTimes(times[..j]) && times[j] < times[j - 1]
  {
    var init := times[..|times| - 1];
    if SortedTimes(init) {
      j := |times| - 1;
      assert times[..j] == init;
      assert j == 0 ==> SortedTimes(times);
      if times[j - 1] <= times[j] {
        forall a, b | 0 <= a <= b < |times| ensures times[a] <= times[b] {
          assert b < j ==> init[a] <= init[b];
          assert a < j ==> init[a] <= init[j - 1];
        }
      }
    } else {
      j := FirstDescent(init);
      assert init[..j] == times[..j];
    }
  }

  /** Long texts up to the descent and empty ones around it: every comment crowds the earlier ones. */
  function Spread(times: seq<int>, j: nat): (texts: seq<string>)
    requires 0 < j < |times|
    ensures |texts| == j + 1
  {
    var span := if times[j - 1] >= times[0] then times[j - 1] - times[0] else 0;
    seq(j + 1, i => if i < j - 1 then seq(span, k => 'x') else "")
  }

  lemma SpreadIsCrowded(times: seq<int>, j: nat)
    requires 0 < j < |times| && SortedTimes(times[..j]) && times[j] < times[j - 1]
    ensures Crowded(Timed(times[..j + 1], Spread(times, j)))
  {
    var texts, comments := Spread(times, j), Timed(times[..j + 1], Spread(times, j));
    assert times[..j][0] <= times[..j][j - 1];
    var span := times[j - 1] - times[0];
    forall a, b | 0 <= a < b < |comments|
      ensures 8 * comments[b].rawTime < 8 * comments[a].rawTime + Width(comments[a].text, ROLL_SPEED_MIN)
    {
      assert b < j ==> times[..j][b] <= times[..j][j - 1];
      assert a < j && times[..j][0] <= times[..j][a];
      assert a < j - 1 ==> |texts[a]| == span;
    }
  }

  /** At a first descent the two comments around it never meet, and could share a row. */
  lemma DescentIsNotOptimal(times: seq<int>, j: nat, draws: nat -> int)
    requires 0 < j < |times| && SortedTimes(times[..j]) && times[j] < times[j - 1] && DrawsValid(draws)
    ensures !OptimalFor(times[..j + 1], Spread(times, j), draws)
  {
    var comments := Timed(times[..j + 1], Spread(times, j));
    SpreadIsCrowded(times, j);
    CrowdedPacks(comments, draws);
    var s := Pack(comments, draws);
    assert comments[j - 1].text == "" && comments[j].text == "";
    var colour := seq(j + 1, i => if i < j then i else j - 1);
    assert forall a, b :: 0 <= a < b < |colour| && colour[a] == colour[b] ==> a == j - 1 && b == j;
    assert ValidColouring(s.placed, colour, j);
  }

  lemma SortedIsOptimal(times: seq<int>, n: nat, texts: seq<string>, draws: nat -> int)
    requires SortedTimes(times) && n <= |times| && |texts| == n && DrawsValid(draws)
    ensures OptimalFor(times[..n], texts, draws)
  {
    TimedIsSorted(times[..n], texts);
    PackIsOptimal(Timed(times[..n], texts), draws);
  }

  lemma TimedIsSorted(times: seq<int>, texts: seq<string>)
    requires SortedTimes(times) && |texts| == |times|
    ensures TimeSorted(Rolling(Timed(times, texts)))
  {
    AllRoll(Timed(times, texts));
  }

  lemma UnsortedIsNotAlways(times: seq<int>)
    requires !SortedTimes(times)
    ensures !AlwaysOptimal(times)
  {
    var j := FirstDescent(times);
    var draws: nat -> int := n => ROLL_SPEED_MIN;
    DescentIsNotOptimal(times, j, draws);
    var n, texts := j + 1, Spread(times, j);
    assert n <= |times| && |texts| == n && DrawsValid(draws) && !OptimalFor(times[..n], texts, draws);
  }

  /** The packing of every prefix is optimal for all texts and all draws exactly when the raw times
      never go down. */
  lemma OptimalIffSorted(times: seq<int>)
    ensures AlwaysOptimal(times) <==> SortedTimes(times)
  {
    if SortedTimes(times) {
      forall n, texts, draws | 0 <= n <= |times| && |texts| == n && DrawsValid(draws)
        ensures OptimalFor(times[..n], texts, draws)
      {
        SortedIsOptimal(times, n, texts, draws);
      }
    } else {
      UnsortedIsNotAlways(times);
    }
  }
}

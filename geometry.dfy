/** Coordinates the display computes before drawing: the segments of the
    lightning bolt of the alert animation and the placement of the lines of a
    screen. Random draws and the font's text measure are inputs. */
module Geometry {
  import opened TextFormat

  /** Vertical distance between consecutive lines, in pixels. */
  const LineHeight: int := 14

  /** `v` moved into `[lo, hi]`: max(lo, min(hi, v)). */
  function Clamp(v: int, lo: int, hi: int): (r: int)
    requires lo <= hi
    ensures lo <= r <= hi
    ensures lo <= v <= hi ==> r == v
    ensures v < lo ==> r == lo
    ensures v > hi ==> r == hi
  {
    var m := if hi < v then hi else v;
    if m < lo then lo else m
  }

  /** One straight piece of the bolt, from (x1, y1) to (x2, y2). */
  datatype Segment = Segment(x1: int, y1: int, x2: int, y2: int)

  /** True when the point lies on a `width` by `height` device. */
  predicate OnDevice(x: int, y: int, width: int, height: int)
  {
    0 <= x <= width - 1 && 0 <= y <= height - 1
  }

  /** The ranges of the random draws of one bolt: the start column, the number
      of segments (one horizontal and one vertical step each), and each step.
      Divisions are by positive constants, so Dafny's division is Python's
      floor division here. */
  predicate LightningDraws(width: int, height: int, startX: int, dxs: seq<int>, dys: seq<int>)
  {
    && width >= 1 && height >= 1
    && width / 4 <= startX <= (width / 4) * 3
    && 5 <= |dxs| <= 8
    && |dys| == |dxs|
    && (forall i :: 0 <= i < |dxs| ==> (-width) / 4 <= dxs[i] <= width / 4)
    && (forall i :: 0 <= i < |dys| ==> height / 8 <= dys[i] <= height / 6)
  }

  /** Segment `s` is one step (dx, dy) of the bolt: its end is its start moved
      by the step and clamped into the device, both ends are on the device,
      it never climbs, and it spans no more columns than a step may. */
  predicate StepSegment(s: Segment, dx: int, dy: int, width: int, height: int)
    requires width >= 1 && height >= 1
  {
    && s.x2 == Clamp(s.x1 + dx, 0, width - 1)
    && s.y2 == Clamp(s.y1 + dy, 0, height - 1)
    && OnDevice(s.x1, s.y1, width, height)
    && OnDevice(s.x2, s.y2, width, height)
    && s.y1 <= s.y2
    && (-width) / 4 <= s.x2 - s.x1 <= width / 4
  }

  /** A step taken from a point on the device, with a vertical step that is
      not negative, gives a segment of the bolt. */
  lemma StepFromDevice(x: int, y: int, dx: int, dy: int, width: int, height: int)
    requires width >= 1 && height >= 1
    requires OnDevice(x, y, width, height)
    requires (-width) / 4 <= dx <= width / 4 && 0 <= dy
    ensures StepSegment(Segment(x, y, Clamp(x + dx, 0, width - 1), Clamp(y + dy, 0, height - 1)),
                        dx, dy, width, height)
  {
  }

  /** Every draw the bolt can make starts on the device. */
  lemma DrawsStartOnDevice(width: int, height: int, startX: int, dxs: seq<int>, dys: seq<int>)
    requires LightningDraws(width, height, startX, dxs, dys)
    ensures OnDevice(startX, 0, width, height)
  {
    assert 4 * (width / 4) <= width;
  }

  /** Each segment begins where the previous one ended. */
  predicate Chained(segments: seq<Segment>)
  {
    forall i :: 0 <= i < |segments| - 1 ==>
      segments[i].x2 == segments[i + 1].x1 && segments[i].y2 == segments[i + 1].y1
  }

  /** The bolt that starts at (x, y) and takes the steps `dxs`/`dys` in turn,
      each endpoint clamped into the device. */
  function Bolt(x: int, y: int, dxs: seq<int>, dys: seq<int>, width: int, height: int): seq<Segment>
    requires width >= 1 && height >= 1
    decreases |dxs|
  {
    if dxs == [] || dys == [] then []
    else
      var nx, ny := Clamp(x + dxs[0], 0, width - 1), Clamp(y + dys[0], 0, height - 1);
      [Segment(x, y, nx, ny)] + Bolt(nx, ny, dxs[1..], dys[1..], width, height)
  }

  /** The rest of a bolt from step `i` on is that step's segment followed by
      the rest from step `i + 1`. */
  lemma BoltStep(x: int, y: int, dxs: seq<int>, dys: seq<int>, width: int, height: int, i: nat)
    requires width >= 1 && height >= 1
    requires i < |dxs| == |dys|
    ensures var nx, ny := Clamp(x + dxs[i], 0, width - 1), Clamp(y + dys[i], 0, height - 1);
      Bolt(x, y, dxs[i..], dys[i..], width, height)
        == [Segment(x, y, nx, ny)] + Bolt(nx, ny, dxs[i + 1..], dys[i + 1..], width, height)
  {
    assert dxs[i..][1..] == dxs[i + 1..] && dys[i..][1..] == dys[i + 1..];
  }

  /** A bolt from a point on the device, with steps in the drawn ranges, has
      one segment per step; it starts at its starting point; each segment
      begins where the previous one ended; and segment `i` is step `i`
      clamped into the device, so every endpoint is on the device and the
      bolt never climbs. */
  lemma {:induction false} BoltShape(x: int, y: int, dxs: seq<int>, dys: seq<int>, width: int, height: int)
    requires width >= 1 && height >= 1
    requires OnDevice(x, y, width, height)
    requires |dxs| == |dys|
    requires forall i :: 0 <= i < |dxs| ==> (-width) / 4 <= dxs[i] <= width / 4
    requires forall i :: 0 <= i < |dys| ==> 0 <= dys[i]
    ensures var b := Bolt(x, y, dxs, dys, width, height);
      && |b| == |dxs|
      && (b != [] ==> b[0].x1 == x && b[0].y1 == y)
      && Chained(b)
      && forall i :: 0 <= i < |b| ==> StepSegment(b[i], dxs[i], dys[i], width, height)
    decreases |dxs|
  {
    if dxs != [] {
      var nx, ny := Clamp(x + dxs[0], 0, width - 1), Clamp(y + dys[0], 0, height - 1);
      StepFromDevice(x, y, dxs[0], dys[0], width, height);
      assert forall i :: 0 <= i < |dxs[1..]| ==> dxs[1..][i] == dxs[i + 1];
      assert forall i :: 0 <= i < |dys[1..]| ==> dys[1..][i] == dys[i + 1];
      BoltShape(nx, ny, dxs[1..], dys[1..], width, height);
      var rest := Bolt(nx, ny, dxs[1..], dys[1..], width, height);
      var b := Bolt(x, y, dxs, dys, width, height);
      assert b == [Segment(x, y, nx, ny)] + rest;
      forall i | 1 <= i < |b| ensures b[i] == rest[i - 1] && StepSegment(b[i], dxs[i], dys[i], width, height) {
        assert b[i] == rest[i - 1];
        assert dxs[i] == dxs[1..][i - 1] && dys[i] == dys[1..][i - 1];
      }
    }
  }

  /** Every bolt the random draws can give has one segment per drawn step,
      starts at (startX, 0), is chained, and keeps to the device. */
  lemma LightningShape(width: int, height: int, startX: int, dxs: seq<int>, dys: seq<int>)
    requires LightningDraws(width, height, startX, dxs, dys)
    ensures var b := Bolt(startX, 0, dxs, dys, width, height);
      && |b| == |dxs|
      && b[0].x1 == startX && b[0].y1 == 0
      && Chained(b)
      && forall i :: 0 <= i < |b| ==> StepSegment(b[i], dxs[i], dys[i], width, height)
  {
    DrawsStartOnDevice(width, height, startX, dxs, dys);
    assert forall i :: 0 <= i < |dys| ==> 0 <= height / 8 <= dys[i];
    BoltShape(startX, 0, dxs, dys, width, height);
  }

  /** The segments of one lightning bolt: as many as drawn, the first starting
      at (startX, 0), each beginning where the previous one ended, and segment
      `i` taking step `i` of the draws clamped into the device. So every
      endpoint is on the device and the bolt never climbs. */
  method LightningSegments(width: int, height: int, startX: int, dxs: seq<int>, dys: seq<int>)
    returns (segments: seq<Segment>)
    requires LightningDraws(width, height, startX, dxs, dys)
    ensures segments == Bolt(startX, 0, dxs, dys, width, height)
    ensures |segments| == |dxs|
    ensures segments[0].x1 == startX && segments[0].y1 == 0
    ensures Chained(segments)
    ensures forall i :: 0 <= i < |segments| ==> StepSegment(segments[i], dxs[i], dys[i], width, height)
  {
    segments := [];
    var currentX, currentY := startX, 0;
    for i := 0 to |dxs|
      invariant segments + Bolt(currentX, currentY, dxs[i..], dys[i..], width, height)
                == Bolt(startX, 0, dxs, dys, width, height)
    {
      var newX := Clamp(currentX + dxs[i], 0, width - 1);
      var newY := Clamp(currentY + dys[i], 0, height - 1);
      BoltStep(currentX, currentY, dxs, dys, width, height, i);
      var seg := Segment(currentX, currentY, newX, newY);
      assert segments + ([seg] + Bolt(newX, newY, dxs[i + 1..], dys[i + 1..], width, height))
          == (segments + [seg]) + Bolt(newX, newY, dxs[i + 1..], dys[i + 1..], width, height);
      segments := segments + [seg];
      currentX, currentY := newX, newY;
    }
    assert dxs[|dxs|..] == [];
    LightningShape(width, height, startX, dxs, dys);
  }

  /** The column of a line of measured width `lineWidth` on a device
      `deviceWidth` pixels wide, scrolled by `offset`. A line that fits is
      centred: it lies wholly on the device, and its left margin equals its
      right margin or is one pixel smaller. A wider line is placed at
      `deviceWidth - offset`, so it moves left as the offset grows. */
  function LineX(deviceWidth: int, lineWidth: nat, offset: int): (x: int)
    ensures lineWidth <= deviceWidth ==>
      && 0 <= x && x + lineWidth <= deviceWidth
      && x <= deviceWidth - lineWidth - x <= x + 1
    ensures lineWidth > deviceWidth ==> x == deviceWidth - offset
  {
    if lineWidth > deviceWidth then deviceWidth - offset
    else (deviceWidth - lineWidth) / 2
  }

  /** One text drawing call: `text` with its top-left corner at (x, y). */
  datatype TextDraw = TextDraw(x: int, y: int, text: string)

  /** The texts of the drawing calls, in order. */
  function DrawnTexts(draws: seq<TextDraw>): seq<string>
  {
    seq(|draws|, i requires 0 <= i < |draws| => draws[i].text)
  }

  /** The drawing calls for a screen: one per line of `text`, in order, the
      line at row `i` drawn 14 pixels per row below the top and placed by
      `LineX` using the measure of its width. Together the drawn lines spell
      the whole screen text. */
  method DrawMultilineCentered(deviceWidth: int, text: string, offset: int, measure: string -> nat)
    returns (draws: seq<TextDraw>)
    ensures |draws| == |SplitLines(text)|
    ensures forall i :: 0 <= i < |draws| ==>
      && draws[i].text == SplitLines(text)[i]
      && draws[i].y == LineHeight * i
      && draws[i].x == LineX(deviceWidth, measure(draws[i].text), offset)
    ensures JoinLines(DrawnTexts(draws)) == text
  {
    var lines := SplitLines(text);
    var yCursor := 0;
    draws := [];
    for i := 0 to |lines|
      invariant |draws| == i
      invariant yCursor == LineHeight * i
      invariant forall j :: 0 <= j < i ==>
        && draws[j].text == lines[j]
        && draws[j].y == LineHeight * j
        && draws[j].x == LineX(deviceWidth, measure(draws[j].text), offset)
    {
      var line := lines[i];
      var lineWidth := measure(line);
      var x;
      if lineWidth > deviceWidth {
        x := deviceWidth - offset;
      } else {
        x := (deviceWidth - lineWidth) / 2;
      }
      draws := draws + [TextDraw(x, yCursor, line)];
      yCursor := yCursor + LineHeight;
    }
    assert DrawnTexts(draws) == lines;
    JoinSplitLines(text);
  }
}

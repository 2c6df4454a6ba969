/** The on-screen console of src/a2x_pack_console.c: its lifecycle state and the
    bounded list of logged lines (oldest first). Drawing is not modelled. */
module Console {

  const UINT_MAX: nat := 0xFFFF_FFFF

  /** `AConsoleState`, in declaration order. */
  datatype State = Invalid | Basic | Full | Visible
  {
    function Rank(): nat
    {
      match this
      case Invalid => 0
      case Basic => 1
      case Full => 2
      case Visible => 3
    }
  }

  /** An `ALine`: where the message came from, its kind and its text. The source and
      kind enumerations are not part of this model and are kept as numbers. */
  datatype Line = Line(source: nat, kind: nat, text: string)

  /** The state `a_console__setShow(doShow)` leaves behind. */
  function ShowState(s: State, doShow: bool): (r: State)
    ensures s.Rank() < Full.Rank() ==> r == s
    ensures s.Rank() >= Full.Rank() ==> r.Rank() >= Full.Rank() && (r == Visible <==> doShow)
  {
    if s.Rank() < Full.Rank() then s
    else if doShow then Visible else Full
  }

  /** The state the toggle button's input callback leaves behind. */
  function ToggleState(s: State, pressed: bool): (r: State)
    ensures !pressed ==> r == s
    ensures pressed && s == Full ==> r == Visible
    ensures pressed && s == Visible ==> r == Full
    ensures s.Rank() < Full.Rank() ==> r == s
  {
    if !pressed then s
    else if s == Full then ShowState(s, true) else ShowState(s, false)
  }

  /** Pressing the toggle twice leaves the state where it was. */
  lemma ToggleTwice(s: State)
    ensures ToggleState(ToggleState(s, true), true) == s
  {
  }

  /** The lines after `a_console__write` of `line` with the given cap: an overwrite
      replaces the newest line (or adds one to an empty list); otherwise the line is
      appended and the oldest line is dropped when the cap is exceeded. */
  function Written(lines: seq<Line>, cap: nat, line: Line, overwrite: bool): (r: seq<Line>)
    ensures overwrite ==> |r| == (if lines == [] then 1 else |lines|)
    ensures overwrite ==> r[|r| - 1] == line && r[..|r| - 1] == lines[..|r| - 1]
    ensures !overwrite ==> |r| == (if |lines| + 1 > cap then |lines| else |lines| + 1)
    ensures !overwrite ==> r == (lines + [line])[|lines| + 1 - |r|..]
  {
    if overwrite then
      if lines == [] then [line] else lines[..|lines| - 1] + [line]
    else
      var appended := lines + [line];
      if |appended| > cap then appended[1..] else appended
  }

  /** The cap a write preserves: an overwrite can hold one line even when the cap is 0. */
  predicate WithinCap(lines: seq<Line>, cap: nat)
  {
    |lines| <= cap || |lines| <= 1
  }

  /** Writing keeps the list within the cap, and the newest line is last unless a
      zero cap drops it at once. */
  lemma WrittenWithinCap(lines: seq<Line>, cap: nat, line: Line, overwrite: bool)
    requires WithinCap(lines, cap)
    ensures WithinCap(Written(lines, cap, line, overwrite), cap)
    ensures overwrite || cap > 0 ==> Written(lines, cap, line, overwrite)[|Written(lines, cap, line, overwrite)| - 1] == line
  {
    var r := Written(lines, cap, line, overwrite);
    if !overwrite && cap > 0 {
      assert r[|r| - 1] == (lines + [line])[|lines|];
    }
  }

  /** Overwriting writes never grow the list beyond one line. */
  lemma {:induction false} OverwritesStayAtOneLine(lines: seq<Line>, cap: nat, writes: seq<Line>)
    requires |lines| <= 1
    ensures |OverwriteAll(lines, cap, writes)| <= 1
    decreases |writes|
  {
    if writes != [] {
      OverwritesStayAtOneLine(Written(lines, cap, writes[0], true), cap, writes[1..]);
    }
  }

  /** A run of overwriting writes. */
  function OverwriteAll(lines: seq<Line>, cap: nat, writes: seq<Line>): seq<Line>
    decreases |writes|
  {
    if writes == [] then lines else OverwriteAll(Written(lines, cap, writes[0], true), cap, writes[1..])
  }

  /** The console's global state: `g_state`, `g_lines` and `g_linesPerScreen`. */
  class Console {
    var state: State
    var lines: seq<Line>
    var linesPerScreen: nat

    /** The program starts with the console uninitialised. */
    constructor ()
      ensures state == Invalid && lines == [] && linesPerScreen == 0
    {
      state := Invalid;
      lines := [];
      linesPerScreen := 0;
    }

    /** `a_console__isInitialized`. */
    predicate IsInitialized(): (r: bool)
      reads this
      ensures r <==> state == Full || state == Visible
    {
      state.Rank() >= Full.Rank()
    }

    /** `a_console__init`: an empty list, no cap yet, and the basic state. */
    method Init()
      modifies this
      ensures lines == [] && linesPerScreen == UINT_MAX && state == Basic
      ensures !IsInitialized() && WithinCap(lines, linesPerScreen)
    {
      lines := [];
      linesPerScreen := UINT_MAX;
      state := Basic;
    }

    /** `a_console__init2`, once the video is on: the cap becomes the screen height in
        lines less two, converted to `unsigned`, the oldest lines are dropped down to
        that cap, and the console is shown or hidden as configured. */
    method Init2(videoOn: bool, screenHeight: nat, lineHeight: nat, consoleOn: bool)
      requires videoOn ==> lineHeight > 0
      modifies this
      ensures !videoOn ==> state == old(state) && lines == old(lines) && linesPerScreen == old(linesPerScreen)
      ensures videoOn ==> linesPerScreen == (screenHeight / lineHeight - 2) % (UINT_MAX + 1)
      ensures videoOn ==> lines == Trimmed(old(lines), linesPerScreen)
      ensures videoOn ==> state == (if consoleOn then Visible else Full)
      ensures videoOn ==> IsInitialized() && |lines| <= linesPerScreen
    {
      if !videoOn {
        return;
      }
      linesPerScreen := (screenHeight / lineHeight - 2) % (UINT_MAX + 1);
      TrimToCap();
      state := if consoleOn then Visible else Full;
    }

    /** The trim loop of `a_console__init2`: pops the oldest line while there are too many. */
    method TrimToCap()
      modifies this
      ensures lines == Trimmed(old(lines), linesPerScreen)
      ensures state == old(state) && linesPerScreen == old(linesPerScreen)
    {
      ghost var start := lines;
      while |lines| > linesPerScreen
        invariant |lines| <= |start| && lines == start[|start| - |lines|..]
        invariant |lines| < |start| ==> |lines| >= linesPerScreen
        invariant state == old(state) && linesPerScreen == old(linesPerScreen)
        decreases |lines|
      {
        lines := lines[1..];
      }
    }

    /** `a_console__setShow`: ignored below the full state. */
    method SetShow(doShow: bool)
      modifies this
      ensures state == ShowState(old(state), doShow)
      ensures lines == old(lines) && linesPerScreen == old(linesPerScreen)
    {
      if state.Rank() < Full.Rank() {
        return;
      }
      state := if doShow then Visible else Full;
    }

    /** `inputCallback`: a press of the toggle button shows a hidden console and hides
        a shown one. */
    method Toggle(pressedOnce: bool)
      modifies this
      ensures state == ToggleState(old(state), pressedOnce)
      ensures lines == old(lines) && linesPerScreen == old(linesPerScreen)
    {
      if pressedOnce {
        if state == Full {
          SetShow(true);
        } else {
          SetShow(false);
        }
      }
    }

    /** `a_console__write`: ignored while the console is invalid. */
    method Write(source: nat, kind: nat, text: string, overwrite: bool)
      modifies this
      ensures old(state) == Invalid ==> lines == old(lines)
      ensures old(state) != Invalid ==> lines == Written(old(lines), linesPerScreen, Line(source, kind, text), overwrite)
      ensures state == old(state) && linesPerScreen == old(linesPerScreen)
    {
      if state == Invalid {
        return;
      }
      var line := Line(source, kind, text);
      if overwrite {
        if lines == [] {
          lines := lines + [line];
        } else {
          lines := lines[..|lines| - 1] + [line];
        }
      } else {
        lines := lines + [line];
        if |lines| > linesPerScreen {
          lines := lines[1..];
        }
      }
    }
  }

  /** The newest `cap` lines, or all of them when there are no more than `cap`. */
  function Trimmed(lines: seq<Line>, cap: nat): (r: seq<Line>)
    ensures |r| <= cap && |r| <= |lines|
    ensures |lines| <= cap ==> r == lines
    ensures |lines| > cap ==> |r| == cap
    ensures lines == lines[..|lines| - |r|] + r
  {
    if |lines| <= cap then lines else lines[|lines| - cap..]
  }
}

/** The bounded command history and its navigation. */
module History {
  import opened Basics

  type Line = seq<Byte>

  /** A history: the lines, oldest first, and the position reached with the arrow keys. */
  datatype Hist = Hist(lines: seq<Line>, index: nat)

  function Add(h: Hist, max: nat, line: Line, blank: bool): Hist {
    var lines :=
      if !blank && (h.lines == [] || h.lines[|h.lines| - 1] != line) then
        (if |h.lines| >= max && h.lines != [] then h.lines[1..] else h.lines) + [line]
      else h.lines;
    Hist(lines, |lines|)
  }

  function Up(h: Hist): (Hist, Option<Line>) {
    if 0 < h.index <= |h.lines| then (h.(index := h.index - 1), Some(h.lines[h.index - 1])) else (h, None)
  }

  function Down(h: Hist): (Hist, Option<Line>) {
    if h.index + 1 < |h.lines| then (h.(index := h.index + 1), Some(h.lines[h.index + 1]))
    else if h.index + 1 == |h.lines| then (h.(index := h.index + 1), None)
    else (h, None)
  }

  // ---- the history is the recent part of the log

  /** The log without lines that repeat the line before them. */
  function Squeezed(log: seq<Line>): seq<Line> {
    var n := |log|;
    if n == 0 then []
    else if n > 1 && log[n - 1] == log[n - 2] then Squeezed(log[..n - 1])
    else Squeezed(log[..n - 1]) + [log[n - 1]]
  }

  function Recent(s: seq<Line>, max: nat): seq<Line> {
    if |s| <= max then s else s[|s| - max..]
  }

  lemma {:induction false} SqueezedEnd(log: seq<Line>)
    requires log != []
    ensures Squeezed(log) != [] && Squeezed(log)[|Squeezed(log)| - 1] == log[|log| - 1]
  {
    var n := |log|;
    if n > 1 && log[n - 1] == log[n - 2] {
      SqueezedEnd(log[..n - 1]);
    }
  }

  /** What is left out of the log was a repetition, and no repetition is left. */
  lemma {:induction false} SqueezedNoRepeat(log: seq<Line>, i: nat)
    requires i + 1 < |Squeezed(log)|
    ensures Squeezed(log)[i] != Squeezed(log)[i + 1]
  {
    var n := |log|;
    var s := Squeezed(log[..n - 1]);
    if i + 1 < |s| {
      SqueezedNoRepeat(log[..n - 1], i);
    } else {
      SqueezedEnd(log[..n - 1]);
    }
  }

  /** One more command that is not blank: history stays the recent part of the squeezed log. */
  lemma {:induction false} AddKeepsRecent(h: Hist, max: nat, log: seq<Line>, line: Line)
    requires max >= 1 && h.lines == Recent(Squeezed(log), max)
    ensures Add(h, max, line, false).lines == Recent(Squeezed(log + [line]), max)
  {
    SqueezedSnoc(log, line);
    if log != [] {
      SqueezedEnd(log);
      if line != log[|log| - 1] {
        RecentSnoc(Squeezed(log), line, max);
      }
    }
  }

  lemma {:induction false} SqueezedSnoc(log: seq<Line>, line: Line)
    ensures Squeezed(log + [line]) ==
      if log != [] && log[|log| - 1] == line then Squeezed(log) else Squeezed(log) + [line]
  {
    var log' := log + [line];
    assert log'[..|log|] == log;
  }

  lemma {:induction false} RecentSnoc(s: seq<Line>, line: Line, max: nat)
    requires max >= 1
    ensures var r := Recent(s, max);
      Recent(s + [line], max) == (if |r| >= max then r[1..] else r) + [line]
  {
  }

  /** Up and then down leads back to where it started. */
  lemma {:induction false} UpThenDown(h: Hist)
    requires 0 < h.index <= |h.lines|
    ensures Down(Up(h).0).0 == h
    ensures Down(Up(h).0).1 == if h.index < |h.lines| then Some(h.lines[h.index]) else None
  {
  }

  class CommandHistory {
    var history: seq<Line>
    var currentIndex: nat
    const maxSize: nat

    ghost predicate Valid() reads this {
      currentIndex <= |history| <= maxSize
    }

    ghost function State(): Hist reads this {
      Hist(history, currentIndex)
    }

    constructor (maxSize: nat)
      ensures Valid() && State() == Hist([], 0) && this.maxSize == maxSize
    {
      history, currentIndex := [], 0;
      this.maxSize := maxSize;
    }

    /** A history of size zero panics on the first command that is not blank; `ok` is false then. */
    method AddCommand(line: Line, blank: bool) returns (ok: bool)
      requires Valid()
      modifies this
      ensures Valid() && (ok <==> maxSize > 0 || blank)
      ensures State() == if ok then Add(old(State()), maxSize, line, blank) else old(State())
    {
      ok := true;
      if !blank && (history == [] || history[|history| - 1] != line) {
        if |history| >= maxSize {
          if history == [] { return false; }
          history := history[1..];
        }
        history := history + [line];
      }
      currentIndex := |history|;
    }

    method Previous() returns (line: Option<Line>)
      requires Valid()
      modifies this
      ensures Valid() && (State(), line) == Up(old(State()))
    {
      if currentIndex > 0 {
        currentIndex := currentIndex - 1;
        line := Some(history[currentIndex]);
      } else {
        line := None;
      }
    }

    method Next() returns (line: Option<Line>)
      requires Valid()
      modifies this
      ensures Valid() && (State(), line) == Down(old(State()))
    {
      line := None;
      if currentIndex < |history| {
        currentIndex := currentIndex + 1;
        if currentIndex < |history| {
          line := Some(history[currentIndex]);
        }
      }
    }
  }
}

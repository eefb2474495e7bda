/** The in-memory log: a fixed ring of lines standing in for everything ever logged. */
module LogRing {
  import opened Numbers

  const CAPACITY := 1000

  /** The last `n` lines of a log, newest first. */
  function Recent(history: seq<string>, n: nat): (lines: seq<string>)
    requires n <= |history|
    ensures |lines| == n
    ensures forall i | 0 <= i < n :: lines[i] == history[|history| - 1 - i]
  {
    if n == 0 then [] else Recent(history, n - 1) + [history[|history| - n]]
  }

  /** How many lines a request for `n` may ask for. */
  function Wanted(n: int): nat {
    if n <= 0 || n > CAPACITY then CAPACITY else n
  }

  /** The index of the line written `k` lines before the last one. */
  function Slot(pos: nat, k: nat): (slot: nat)
    requires pos < CAPACITY && k < CAPACITY
    ensures slot < CAPACITY
  {
    (pos - 1 - k + CAPACITY) % CAPACITY
  }

  /** Writing a line at `pos` makes it the last one and moves every other one back. */
  lemma {:induction false} SlotMoves(pos: nat, k: nat)
    requires pos < CAPACITY && k < CAPACITY
    ensures var next := (pos + 1) % CAPACITY;
      Slot(next, k) == (if k == 0 then pos else Slot(pos, k - 1)) && (Slot(next, k) == pos ==> k == 0)
  {
  }

  /** The ring `lines`, written next at `pos`, holds the end of the history. */
  predicate Holds(lines: seq<string>, pos: nat, history: seq<string>)
    requires |lines| == CAPACITY && pos < CAPACITY
  {
    forall k | 0 <= k < Min(|history|, CAPACITY) :: lines[Slot(pos, k)] == history[|history| - 1 - k]
  }

  lemma {:induction false} WriteHolds(lines: seq<string>, pos: nat, history: seq<string>, line: string)
    requires |lines| == CAPACITY && pos < CAPACITY && Holds(lines, pos, history)
    ensures Holds(lines[pos := line], (pos + 1) % CAPACITY, history + [line])
  {
    var longer, next, after := history + [line], (pos + 1) % CAPACITY, lines[pos := line];
    forall k | 0 <= k < Min(|longer|, CAPACITY) ensures after[Slot(next, k)] == longer[|longer| - 1 - k] {
      SlotMoves(pos, k);
      hide Slot;
    }
  }

  /** `ringBufferHandler` without the handler it wraps. */
  class RingBuffer {
    const buf: array<string>
    var pos: nat
    var full: bool
    /** Every line ever handled. */
    ghost var history: seq<string>

    ghost predicate Valid()
      reads this, buf
    {
      && buf.Length == CAPACITY
      && pos < CAPACITY
      && (if full then |history| >= CAPACITY else pos == |history| < CAPACITY)
      && Holds(buf[..], pos, history)
    }

    constructor ()
      ensures Valid() && fresh(buf) && history == []
    {
      buf := new string[CAPACITY];
      pos, full, history := 0, false, [];
    }

    method Handle(line: string)
      requires Valid()
      modifies this, buf
      ensures Valid() && history == old(history) + [line]
    {
      WriteHolds(buf[..], pos, history, line);
      hide Holds;
      buf[pos] := line;
      pos := (pos + 1) % CAPACITY;
      if pos == 0 {
        full := true;
      }
      history := history + [line];
    }

    /** The most recent lines, newest first; a request out of range means as many as the ring holds. */
    method Lines(n: int) returns (lines: seq<string>)
      requires Valid()
      ensures lines == Recent(history, Min(Wanted(n), Min(CAPACITY, |history|)))
      ensures |lines| == Min(if 1 <= n <= 1000 then n else 1000, |history|)
      ensures forall k | 0 <= k < |lines| :: lines[k] == history[|history| - 1 - k]
    {
      var wanted := n;
      if wanted <= 0 || wanted > CAPACITY {
        wanted := CAPACITY;
      }
      var count := pos;
      if full {
        count := CAPACITY;
      }
      if wanted > count {
        wanted := count;
      }
      lines := seq(wanted, _ => "");
      for i := 0 to wanted
        invariant |lines| == wanted
        invariant forall k | 0 <= k < i :: lines[k] == history[|history| - 1 - k]
      {
        var idx := (pos - 1 - i + CAPACITY) % CAPACITY;
        assert idx == Slot(pos, i);
        if !full && idx < 0 {
          break;
        }
        lines := lines[i := buf[idx]];
      }
    }

    /** `WithAttrs` and `WithGroup`: a handler of its own that starts with a copy of the lines so far. */
    method Clone() returns (copy: RingBuffer)
      requires Valid()
      ensures fresh(copy) && fresh(copy.buf) && copy.Valid() && copy.history == history
    {
      copy := new RingBuffer();
      for i := 0 to CAPACITY
        invariant copy.buf.Length == CAPACITY && fresh(copy.buf)
        invariant forall k | 0 <= k < i :: copy.buf[k] == buf[k]
        modifies copy.buf
      {
        copy.buf[i] := buf[i];
      }
      copy.pos, copy.full, copy.history := pos, full, history;
    }
  }
}

/** The console progress bar (util/ProgressBar.kt). */
module Progress {
  import opened Text

  /** Kotlin's `Int` division, which truncates toward zero (Dafny's `/` is Euclidean). */
  function TruncDiv(a: int, b: int): (q: int)
    requires b != 0
    ensures a >= 0 && b > 0 ==> q == a / b
  {
    var q0 := (if a < 0 then -a else a) / (if b < 0 then -b else b);
    if (a < 0) == (b < 0) then q0 else -q0
  }

  /** `((current.toDouble() / total) * 100).toInt().coerceIn(0..100)`, on exact integers.
      A zero total divides by zero in floating point: a positive count gives +Infinity
      (clamped to 100), zero gives NaN (converted to 0), a negative count -Infinity (0). */
  function Percent(current: int, total: int): (p: int)
    ensures 0 <= p <= 100
    ensures total > 0 && 0 <= current <= total ==> p * total <= current * 100 < (p + 1) * total
    ensures total > 0 && current >= total ==> p == 100
  {
    if total == 0 then (if current > 0 then 100 else 0)
    else if total > 0 && current >= 0 then Share(current, total)
    else
      var raw := TruncDiv(current * 100, total);
      if raw < 0 then 0 else if raw > 100 then 100 else raw
  }

  /** The percentage of a non-negative count of a positive total, clamped at 100. */
  function Share(current: nat, total: int): (p: int)
    requires total > 0
    ensures 0 <= p <= 100
    ensures current <= total ==> p * total <= current * 100 < (p + 1) * total
    ensures current >= total ==> p == 100
  {
    var raw := current * 100 / total;
    PercentDivision(current, total);
    if raw > 100 then assert current > total; 100 else raw
  }

  lemma DivBounds(a: int, b: int)
    requires a >= 0 && b > 0
    ensures (a / b) * b <= a < (a / b + 1) * b
  {
  }

  lemma PercentDivision(current: int, total: int)
    requires current >= 0 && total > 0
    ensures (current * 100 / total) * total <= current * 100 < (current * 100 / total + 1) * total
    ensures current <= total ==> current * 100 / total <= 100
    ensures current >= total ==> current * 100 / total >= 100
  {
    DivBounds(current * 100, total);
    if current <= total { DivAtMost(current * 100, total, 100); }
    if current >= total { DivAtLeast(current * 100, total, 100); }
  }

  /** `x * b < y * b` with a positive `b` gives `x < y`. */
  lemma MulCancel(x: int, y: int, b: int)
    requires b > 0
    ensures x * b < y * b ==> x < y
  {
    assert x * b - y * b == (x - y) * b;
  }

  lemma DivAtMost(a: int, b: int, k: int)
    requires a >= 0 && b > 0 && a <= k * b
    ensures a / b <= k
  {
    DivBounds(a, b);
    MulCancel(a / b, k + 1, b);
  }

  lemma DivAtLeast(a: int, b: int, k: int)
    requires a >= 0 && b > 0 && a >= k * b
    ensures a / b >= k
  {
    DivBounds(a, b);
    MulCancel(k, a / b + 1, b);
  }

  /** `filledLength = progress * barLength / 100`. */
  function Filled(percent: int, barLength: nat): (f: nat)
    requires 0 <= percent <= 100
    ensures f <= barLength
    ensures percent == 100 ==> f == barLength
  {
    percent * barLength / 100
  }

  /** The bar between the brackets: `filled - 1` '=' characters (none when nothing is
      filled), the spinner glyph, then '-' for the unfilled part. */
  function Bar(filled: nat, barLength: nat, glyph: char): (b: string)
    requires filled <= barLength
    ensures |b| == if filled >= 1 then barLength else barLength + 1
    ensures forall i :: 0 <= i < |b| ==> b[i] in {'=', glyph, '-'}
    ensures filled >= 1 ==> b[filled - 1] == glyph && forall i :: 0 <= i < filled - 1 ==> b[i] == '='
  {
    Repeat('=', if filled >= 1 then filled - 1 else 0) + [glyph] + Repeat('-', barLength - filled)
  }

  /** Oldest message dropped once the window is over-full (a single `removeFirst`). */
  function PushMessage(messages: seq<string>, m: string, maxLines: int): (r: seq<string>)
    requires |messages| <= if maxLines < 0 then 0 else maxLines
    ensures |r| <= if maxLines < 0 then 0 else maxLines
    ensures maxLines > 0 ==> |r| > 0 && r[|r| - 1] == m
    ensures |messages| < maxLines ==> r == messages + [m]
    ensures |messages| >= maxLines ==> r == (messages + [m])[1..]
  {
    var added := messages + [m];
    if |added| > maxLines then added[1..] else added
  }

  class ProgressBar {
    const title: string
    const barLength: nat
    const useMessages: bool
    const maxMessageLines: int
    var current: int
    var total: int
    var started: bool
    var messages: seq<string>

    /** The message window never exceeds `maxMessageLines` (or 0 when that is negative). */
    predicate Valid()
      reads this
    {
      |messages| <= if maxMessageLines < 0 then 0 else maxMessageLines
    }

    constructor (title: string, barLength: nat, useMessages: bool, maxMessageLines: int)
      ensures Valid()
      ensures this.title == title && this.barLength == barLength
      ensures this.useMessages == useMessages && this.maxMessageLines == maxMessageLines
      ensures current == 0 && total == 0 && !started && messages == []
    {
      this.title := title;
      this.barLength := barLength;
      this.useMessages := useMessages;
      this.maxMessageLines := maxMessageLines;
      current, total, started, messages := 0, 0, false, [];
    }

    /** `start(total)`: sets the total, resets the count and, with messages on, clears them. */
    method Start(total: int)
      requires Valid()
      modifies this
      ensures Valid()
      ensures this.total == total && current == 0 && started
      ensures messages == if useMessages then [] else old(messages)
    {
      this.total := total;
      current := 0;
      started := true;
      if useMessages {
        messages := [];
      }
    }

    /** `step(n, message)`: nothing before `start`; otherwise the count grows by exactly `n`
        and a non-null message is recorded when messages are on. */
    method Step(n: int, message: Option<string>)
      requires Valid()
      modifies this
      ensures Valid()
      ensures !old(started) ==> current == old(current) && messages == old(messages)
      ensures old(started) ==> current == old(current) + n
      ensures old(started) ==> (messages ==
        if useMessages && message.Some? then PushMessage(old(messages), message.value, maxMessageLines)
        else old(messages))
      ensures total == old(total) && started == old(started)
    {
      if !started {
        return;
      }
      current := current + n;
      if useMessages && message.Some? {
        messages := PushMessage(messages, message.value, maxMessageLines);
      }
    }

    /** `update()`: the line it draws, or nothing before `start`. `glyph` is the spinner
        character picked at random from "c" and "C". */
    function Line(glyph: char): (r: Option<string>)
      reads this
      requires glyph == 'c' || glyph == 'C'
      ensures r.None? <==> !started
    {
      if !started then None
      else
        var p := Percent(current, total);
        Some((if title != "" then title + ": " else "") + "[" + Bar(Filled(p, barLength), barLength, glyph)
          + "] " + IntToString(p) + "% (" + IntToString(current) + "/" + IntToString(total) + ")")
    }
  }
}

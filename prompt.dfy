/** The answer normalisation of util/prompt.kt. Reading the console on a separate thread
    with a timeout is an input: `input` is None when nothing was read in time (or the
    console is closed), and the line read otherwise. */
module Prompt {
  import opened Text

  /** The answer, and the timeout message printed on the way, if any. */
  datatype Answer = Answer(text: string, notice: Option<string>)

  /** A blank or missing line gives the default in lower case; any other line is
      trimmed and lower-cased. The timeout message is printed only when no line was read
      at all, not for a blank one. */
  function PromptAnswer(input: Option<string>, timeoutMessage: Option<string>, default: string): (a: Answer)
    ensures (input.None? || IsBlank(input.value)) ==> a.text == Lower(default)
    ensures input.Some? && !IsBlank(input.value) ==> a.text == Lower(Trim(input.value)) && a.text != ""
    ensures a.notice.Some? <==> input.None? && timeoutMessage.Some?
    ensures a.notice.Some? ==> a.notice == timeoutMessage
  {
    var trimmed := if input.Some? then Some(Trim(input.value)) else None;
    if trimmed.None? || IsBlank(trimmed.value) then
      TrimmedBlank(input);
      Answer(Lower(default), if input.None? && timeoutMessage.Some? then timeoutMessage else None)
    else
      TrimmedBlank(input);
      Answer(Lower(trimmed.value), None)
  }

  lemma TrimmedBlank(input: Option<string>)
    ensures input.Some? ==> (IsBlank(Trim(input.value)) <==> IsBlank(input.value))
  {
    if input.Some? {
      TrimEmptyIffBlank(input.value);
      TrimEmptyIffBlank(Trim(input.value));
      TrimmedHasNoOuterWhitespace(input.value);
      var t := Trim(input.value);
      if t != [] {
        assert !IsWhitespace(t[0]);
        TrimUntouched(t);
      }
    }
  }

  lemma LowerKeepsWhitespace(s: string)
    ensures forall i :: 0 <= i < |s| ==> (IsWhitespace(Lower(s)[i]) <==> IsWhitespace(s[i]))
  {
  }

  lemma {:induction false} LowerIdempotent(s: string)
    ensures Lower(Lower(s)) == Lower(s)
  {
    assert forall i :: 0 <= i < |s| ==> LowerChar(LowerChar(s[i])) == LowerChar(s[i]);
  }

  /** An answer typed back at the prompt is read as the same answer: normalising is
      idempotent. */
  lemma AnswerIsStable(input: string, timeoutMessage: Option<string>, default: string)
    requires !IsBlank(input)
    ensures PromptAnswer(Some(PromptAnswer(Some(input), timeoutMessage, default).text), timeoutMessage, default)
         == PromptAnswer(Some(input), timeoutMessage, default)
  {
    var t := Trim(input);
    var a := Lower(t);
    TrimmedHasNoOuterWhitespace(input);
    LowerKeepsWhitespace(t);
    TrimUntouched(a);
    LowerIdempotent(t);
    TrimEmptyIffBlank(input);
    assert !IsBlank(a) by {
      assert a != [] && !IsWhitespace(a[0]);
    }
  }
}

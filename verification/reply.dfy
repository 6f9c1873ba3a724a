/**
 * Clean-up of the model's reply and the parse-error path that follows it;
 * the same lines appear in both entry points.
 */
module Reply {
  import opened Wrappers
  import opened JsonValue
  import opened PyStr
  import opened PyExc

  /** The prefix test applied to the stripped reply. */
  const FenceTag: string := "```json"
  /** The first alternative of the pattern, anchored by `^`. */
  const OpenFence: string := "```json\n"
  /** The second alternative of the pattern, anchored by `$`. */
  const CloseFence: string := "```"

  const ParseFailurePrefix: string := "Failed to parse Gemini response."

  /** `^```json\n` matches at `i`: `^` without MULTILINE holds only at position 0. */
  predicate OpenAt(s: string, i: nat) {
    i == 0 && StartsWith(s, OpenFence)
  }

  /**
   * "```$" matches at `i`: without MULTILINE, `$` holds at the end of the
   * string and just before a newline that ends the string.
   */
  predicate CloseAt(s: string, i: nat) {
    && i + |CloseFence| <= |s|
    && s[i..i + |CloseFence|] == CloseFence
    && (i + |CloseFence| == |s| || (i + |CloseFence| + 1 == |s| && s[|s| - 1] == '\n'))
  }

  /**
   * `re.sub` of the pattern by "" on `s`, scanning from position `i`:
   * at each position the first alternative is tried, then the second;
   * a match is deleted and the scan resumes after it, otherwise one
   * character is copied.
   */
  function SubFrom(s: string, i: nat): string
    requires i <= |s|
    decreases |s| - i
  {
    if i == |s| then []
    else if OpenAt(s, i) then SubFrom(s, i + |OpenFence|)
    else if CloseAt(s, i) then SubFrom(s, i + |CloseFence|)
    else [s[i]] + SubFrom(s, i + 1)
  }

  /** `re.sub(r"^```json\n|```$", "", s)` */
  function RegexSub(s: string): string {
    SubFrom(s, 0)
  }

  /** Remove a leading "```json\n", if there is one. */
  function DropOpenFence(s: string): string {
    if StartsWith(s, OpenFence) then s[|OpenFence|..] else s
  }

  /** Remove one trailing "```", if there is one. */
  function DropCloseFence(s: string): string {
    if EndsWith(s, CloseFence) then s[..|s| - |CloseFence|] else s
  }

  /** Where no alternative can match any more, the scan copies the rest of the text. */
  lemma {:induction false} SubFromCopies(s: string, i: nat)
    requires i <= |s|
    requires 0 < i || !StartsWith(s, OpenFence)
    requires forall k :: i <= k <= |s| ==> !CloseAt(s, k)
    ensures SubFrom(s, i) == s[i..]
    decreases |s| - i
  {
    if i < |s| {
      assert !OpenAt(s, i) && !CloseAt(s, i);
      SubFromCopies(s, i + 1);
      assert s[i..] == [s[i]] + s[i + 1..];
    }
  }

  /** Before a closing fence that ends the text, the scan copies everything up to it and deletes it. */
  lemma {:induction false} SubFromClosing(s: string, i: nat)
    requires EndsWith(s, CloseFence) && i <= |s| - |CloseFence|
    requires 0 < i || !StartsWith(s, OpenFence)
    requires s[|s| - 1] != '\n'
    ensures SubFrom(s, i) == s[i..|s| - |CloseFence|]
    decreases |s| - i
  {
    var e := |s| - |CloseFence|;
    if i == e {
      assert s[i..i + |CloseFence|] == s[e..] == CloseFence;
      assert CloseAt(s, i);
      assert SubFrom(s, i) == SubFrom(s, |s|) == [];
    } else {
      assert !OpenAt(s, i) && !CloseAt(s, i);
      assert SubFrom(s, i) == [s[i]] + SubFrom(s, i + 1);
      SubFromClosing(s, i + 1);
      assert s[i..e] == [s[i]] + s[i + 1..e];
    }
  }

  /** Past the opening position, the scan only deletes a fence that ends the text. */
  lemma SubFromTail(s: string, i: nat)
    requires i <= |s|
    requires 0 < i || !StartsWith(s, OpenFence)
    requires s == [] || s[|s| - 1] != '\n'
    ensures SubFrom(s, i) ==
            if EndsWith(s, CloseFence) && i <= |s| - |CloseFence| then s[i..|s| - |CloseFence|] else s[i..]
  {
    if EndsWith(s, CloseFence) && i <= |s| - |CloseFence| {
      SubFromClosing(s, i);
    } else {
      forall k | i <= k <= |s|
        ensures !CloseAt(s, k)
      {
      }
      SubFromCopies(s, i);
    }
  }

  /**
   * On a text that does not end in a newline (every stripped text), the
   * substitution removes exactly a leading "```json\n" and one trailing
   * "```"; the two can never overlap.
   */
  lemma RegexSubNoFinalNewline(s: string)
    requires s == [] || s[|s| - 1] != '\n'
    ensures RegexSub(s) == DropCloseFence(DropOpenFence(s))
  {
    if StartsWith(s, OpenFence) {
      assert OpenAt(s, 0);
      SubFromTail(s, |OpenFence|);
      var t := s[|OpenFence|..];
      if EndsWith(s, CloseFence) {
        assert s[7] == '\n';
        assert EndsWith(t, CloseFence);
        assert t[..|t| - 3] == s[|OpenFence|..|s| - 3];
      } else {
        assert !EndsWith(t, CloseFence);
      }
    } else {
      SubFromTail(s, 0);
    }
  }

  /**
   * The reply clean-up: strip surrounding whitespace and, when the
   * result starts with "```json", apply the substitution.
   */
  function CleanReply(raw: string): (r: string)
    ensures !StartsWith(Strip(raw), FenceTag) ==> r == Strip(raw)
    ensures StartsWith(Strip(raw), FenceTag) ==> r == DropCloseFence(DropOpenFence(Strip(raw)))
  {
    var t := Strip(raw);
    if StartsWith(t, FenceTag) then
      TrimmedNoFinalNewline(t);
      RegexSubNoFinalNewline(t);
      RegexSub(t)
    else
      t
  }

  /** A stripped text never ends in a newline, so `$` can only match at its very end. */
  lemma TrimmedNoFinalNewline(t: string)
    requires Trimmed(t)
    ensures t == [] || t[|t| - 1] != '\n'
  {
    assert IsSpace('\n');
  }

  /**
   * The message of the `ValueError` raised for an unparseable reply: the
   * fixed text, the decoder's detail, then the cleaned reply itself.
   */
  function ParseFailureMessage(detail: string, cleaned: string): (msg: string)
    ensures StartsWith(msg, ParseFailurePrefix)
    ensures EndsWith(msg, "\nResponse:\n" + cleaned)
    ensures |ParseFailurePrefix| + 8 + |detail| <= |msg|
    ensures msg[|ParseFailurePrefix|..|ParseFailurePrefix| + 8 + |detail|] == " Error: " + detail
  {
    var head := ParseFailurePrefix + " Error: " + detail;
    var tail := "\nResponse:\n" + cleaned;
    var msg := head + tail;
    assert msg[..|ParseFailurePrefix|] == ParseFailurePrefix;
    assert msg[|msg| - |tail|..] == tail;
    assert msg[|ParseFailurePrefix|..|ParseFailurePrefix| + 8 + |detail|] == " Error: " + detail;
    msg
  }

  /** `json.loads` on the cleaned reply; a decode failure is re-raised as `ValueError`. */
  function ParseReply(output: string, loads: string -> Result<Json, string>): (r: Result<Json, Exc>)
    ensures r.Success? <==> loads(CleanReply(output)).Success?
    ensures r.Success? ==> r.value == loads(CleanReply(output)).value
    ensures r.Failure? ==> r.error.cls == ValueError
    ensures r.Failure? ==> r.error.msg == ParseFailureMessage(loads(CleanReply(output)).error, CleanReply(output))
  {
    var cleaned := CleanReply(output);
    match loads(cleaned)
    case Success(parsed) => Success(parsed)
    case Failure(detail) => Failure(Exc(ValueError, ParseFailureMessage(detail, cleaned)))
  }

  /** A trimmed reply that starts with the fence tag loses exactly the two fences. */
  lemma CleanReplyTrimmedFenced(raw: string)
    requires Trimmed(raw) && StartsWith(raw, FenceTag)
    ensures CleanReply(raw) == DropCloseFence(DropOpenFence(raw))
  {
    StripTrimmed(raw);
  }

  /** Whitespace around the reply does not change what the clean-up produces. */
  lemma CleanReplyPadded(a: string, r: string, b: string)
    requires AllSpace(a) && AllSpace(b) && Trimmed(r)
    ensures CleanReply(a + r + b) == CleanReply(r)
  {
    StripPadded(a, r, b);
    StripTrimmed(r);
  }

  /** A text that begins with the opening fence loses exactly that fence. */
  lemma DropOpenFenceOf(x: string)
    ensures StartsWith(OpenFence + x, FenceTag)
    ensures DropOpenFence(OpenFence + x) == x
  {
    var s := OpenFence + x;
    assert s[..|OpenFence|] == OpenFence;
    assert s[|OpenFence|..] == x;
    assert s[..|FenceTag|] == OpenFence[..|FenceTag|] == FenceTag;
  }

  /** A text that ends with the closing fence loses exactly that fence. */
  lemma DropCloseFenceOf(x: string)
    ensures DropCloseFence(x + CloseFence) == x
  {
    var s := x + CloseFence;
    assert s[|s| - |CloseFence|..] == CloseFence;
    assert s[..|s| - |CloseFence|] == x;
  }

  /**
   * Removing a closing fence never eats into the fence tag: a text that
   * starts with "```json" and ends with "```" is at least ten characters long.
   */
  lemma DropCloseFenceKeepsTag(t: string)
    requires StartsWith(t, FenceTag)
    ensures StartsWith(DropCloseFence(t), FenceTag)
  {
    if EndsWith(t, CloseFence) {
      var k := |t| - |CloseFence|;
      assert k >= |FenceTag| by {
        assert t[k] == t[k..][0] == '`';
        assert forall m :: 3 <= m < |FenceTag| ==> t[m] == t[..|FenceTag|][m] != '`';
      }
      var u := t[..k];
      assert u[..|FenceTag|] == t[..|FenceTag|];
    }
  }

  /** A fence glued to its content, with no newline before the closing fence, is removed exactly. */
  lemma CleanReplyWrapped(j: string)
    ensures CleanReply(OpenFence + j + CloseFence) == j
  {
    var raw := OpenFence + j + CloseFence;
    assert raw == OpenFence + (j + CloseFence);
    DropOpenFenceOf(j + CloseFence);
    DropCloseFenceOf(j);
    assert Trimmed(raw) by {
      assert raw[0] == OpenFence[0] == '`';
      assert raw[|raw| - 1] == CloseFence[2] == '`';
    }
    CleanReplyTrimmedFenced(raw);
  }

  /**
   * The usual markdown layout, closing fence on its own line, keeps the
   * newline that precedes the closing fence.
   */
  lemma CleanReplyWrappedOnLines(j: string)
    ensures CleanReply(OpenFence + j + "\n" + CloseFence) == j + "\n"
  {
    var line := j + "\n";
    assert OpenFence + j + "\n" == OpenFence + line by {
      ConcatAssoc(OpenFence, j, "\n");
    }
    CleanReplyWrapped(line);
  }

  /** An opening fence not followed directly by a newline (a space, "\r\n", the content itself) survives. */
  lemma CleanReplyKeepsLooseOpening(raw: string)
    requires StartsWith(Strip(raw), FenceTag)
    requires !StartsWith(Strip(raw), OpenFence)
    ensures StartsWith(CleanReply(raw), FenceTag)
    ensures CleanReply(raw) == DropCloseFence(Strip(raw))
  {
    var t := Strip(raw);
    assert DropOpenFence(t) == t;
    DropCloseFenceKeepsTag(t);
  }

  /** Text that does not start with the fence tag after stripping is cleaned once and for all. */
  lemma CleanReplyUnfencedIdempotent(raw: string)
    requires !StartsWith(Strip(raw), FenceTag)
    ensures CleanReply(raw) == Strip(raw)
    ensures CleanReply(CleanReply(raw)) == CleanReply(raw)
  {
    StripIdempotent(raw);
  }

  /** Already-stripped, unfenced text is returned unchanged. */
  lemma CleanReplyPlain(s: string)
    requires Trimmed(s)
    requires !StartsWith(s, FenceTag)
    ensures CleanReply(s) == s
  {
    StripTrimmed(s);
  }

  /** A reply that opens with a visible character other than a backtick is only stripped. */
  lemma CleanReplyPlainStart(raw: string)
    requires raw != [] && !IsSpace(raw[0]) && raw[0] != '`'
    ensures CleanReply(raw) == Strip(raw)
  {
    StripKeepsFirst(raw);
  }

  /** Cleaning is not idempotent on fenced text: the kept newline is stripped by a second pass. */
  lemma CleanReplyNotIdempotent()
    ensures CleanReply(OpenFence + "{}\n" + CloseFence) == "{}\n"
    ensures CleanReply(CleanReply(OpenFence + "{}\n" + CloseFence)) == "{}"
  {
    CleanReplyWrappedOnLines("{}");
    assert OpenFence + "{}" + "\n" + CloseFence == OpenFence + "{}\n" + CloseFence;
    assert "{}\n" == [] + "{}" + "\n";
    CleanReplyPadded([], "{}", "\n");
    CleanReplyPlain("{}");
  }

  /** A fenced object on its own lines keeps its final newline. */
  lemma CleanReplyExampleFenced()
    ensures CleanReply(OpenFence + "{\"a\":1}" + "\n" + CloseFence) == "{\"a\":1}\n"
  {
    CleanReplyWrappedOnLines("{\"a\":1}");
  }

  /**
   * An opening fence not followed by a newline ("```json{...}```", or
   * "```json\r\n...```" with Windows line ends) is kept; only the closing
   * fence goes.
   */
  lemma CleanReplyLooseFence(x: string)
    requires x == [] || x[0] != '\n'
    ensures CleanReply(FenceTag + x + CloseFence) == FenceTag + x
  {
    var raw := FenceTag + x + CloseFence;
    assert Trimmed(raw) by {
      assert raw[0] == FenceTag[0] == '`';
      assert raw[|raw| - 1] == CloseFence[2] == '`';
    }
    StripTrimmed(raw);
    assert StartsWith(raw, FenceTag) by {
      assert raw[..|FenceTag|] == FenceTag;
    }
    assert !StartsWith(raw, OpenFence) by {
      assert |raw| > |FenceTag| && raw[|FenceTag|] != '\n';
    }
    CleanReplyKeepsLooseOpening(raw);
    DropCloseFenceOf(FenceTag + x);
  }

  /** A reply that is not JSON at all surfaces verbatim at the end of the error message. */
  lemma ParseReplyShowsReply(reply: string, loads: string -> Result<Json, string>)
    requires Trimmed(reply) && !StartsWith(reply, FenceTag)
    requires loads(reply).Failure?
    ensures ParseReply(reply, loads).Failure?
    ensures ParseReply(reply, loads).error.cls == ValueError
    ensures EndsWith(ParseReply(reply, loads).error.msg, reply)
  {
    CleanReplyPlain(reply);
    EndsWithShorter(ParseReply(reply, loads).error.msg, "\nResponse:\n", reply);
  }
}

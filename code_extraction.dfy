/** The 2FA code extractor: `message_body[/\d{6}/]`, the leftmost run of six
    consecutive ASCII digits in an SMS body, or `nil` when there is none.
    Ruby's `\d` matches only the ASCII digits `0`..`9`. */
module CodeExtraction {
  import opened Outcomes

  /** Number of digits in a code (the `{6}` of the pattern). */
  const CodeLength: nat := 6

  predicate IsAsciiDigit(c: char) {
    '0' <= c <= '9'
  }

  predicate AllDigits(s: string) {
    forall k :: 0 <= k < |s| ==> IsAsciiDigit(s[k])
  }

  /** Six ASCII digits start at index `i` of `s`. */
  predicate DigitRunAt(s: string, i: int) {
    0 <= i && i + CodeLength <= |s| && AllDigits(s[i..i + CodeLength])
  }

  /** The pattern matches somewhere in `s`. */
  ghost predicate HasCode(s: string) {
    exists i :: DigitRunAt(s, i)
  }

  /** `i` is where a leftmost-first regex search reports its match. */
  ghost predicate IsLeftmostRun(s: string, i: int) {
    DigitRunAt(s, i) && forall j :: 0 <= j < i ==> !DigitRunAt(s, j)
  }

  /** The regex engine's scan: try each start position from `from` onward. */
  function FirstRunFrom(s: string, from: nat): (r: Option<nat>)
    requires from <= |s|
    ensures r.Some? ==> from <= r.value && DigitRunAt(s, r.value)
    ensures r.Some? ==> forall j :: from <= j < r.value ==> !DigitRunAt(s, j)
    ensures r.None? ==> forall j :: from <= j ==> !DigitRunAt(s, j)
    decreases |s| - from
  {
    if from + CodeLength > |s| then None
    else if AllDigits(s[from..from + CodeLength]) then Some(from)
    else FirstRunFrom(s, from + 1)
  }

  /** `message_body[/\d{6}/]`. */
  function ExtractCode(body: string): (code: Option<string>)
    ensures code.Some? <==> HasCode(body)
    ensures code.Some? ==> |code.value| == CodeLength && AllDigits(code.value)
    ensures code.Some? ==> exists i :: IsLeftmostRun(body, i) && code.value == body[i..i + CodeLength]
  {
    match FirstRunFrom(body, 0)
    case None => None
    case Some(i) =>
      assert IsLeftmostRun(body, i);
      Some(body[i..i + CodeLength])
  }

  /** The leftmost run is what is extracted: together with the contract of
      ExtractCode this characterises the result completely. */
  lemma ExtractCodeIsLeftmost(body: string, i: int)
    requires IsLeftmostRun(body, i)
    ensures ExtractCode(body) == Some(body[i..i + CodeLength])
  {
  }

  /** Text after a found code never changes which code is found. */
  lemma ExtractCodeIgnoresSuffix(body: string, tail: string)
    requires ExtractCode(body).Some?
    ensures ExtractCode(body + tail) == ExtractCode(body)
  {
    var i :| IsLeftmostRun(body, i) && ExtractCode(body).value == body[i..i + CodeLength];
    var s := body + tail;
    assert s[i..i + CodeLength] == body[i..i + CodeLength];
    assert DigitRunAt(s, i);
    forall j | 0 <= j < i
      ensures !DigitRunAt(s, j)
    {
      assert s[j..j + CodeLength] == body[j..j + CodeLength];
      assert !DigitRunAt(body, j);
    }
    ExtractCodeIsLeftmost(s, i);
  }

  /** Text before the code that holds no digit never changes which code is found. */
  lemma ExtractCodeIgnoresDigitFreePrefix(head: string, body: string)
    requires forall k :: 0 <= k < |head| ==> !IsAsciiDigit(head[k])
    ensures ExtractCode(head + body) == ExtractCode(body)
  {
    var s := head + body;
    forall j | 0 <= j
      ensures DigitRunAt(s, |head| + j) <==> DigitRunAt(body, j)
    {
      if j + CodeLength <= |body| {
        assert s[|head| + j..|head| + j + CodeLength] == body[j..j + CodeLength];
      }
    }
    forall j | 0 <= j < |head|
      ensures !DigitRunAt(s, j)
    {
      if j + CodeLength <= |s| {
        assert s[j..j + CodeLength][0] == head[j];
      }
    }
    if ExtractCode(body).Some? {
      var i :| IsLeftmostRun(body, i) && ExtractCode(body).value == body[i..i + CodeLength];
      assert s[|head| + i..|head| + i + CodeLength] == body[i..i + CodeLength];
      forall j | 0 <= j < |head| + i
        ensures !DigitRunAt(s, j)
      {
        if j >= |head| {
          assert DigitRunAt(s, |head| + (j - |head|)) <==> DigitRunAt(body, j - |head|);
        }
      }
      ExtractCodeIsLeftmost(s, |head| + i);
    } else {
      if ExtractCode(s).Some? {
        var i :| DigitRunAt(s, i);
        assert DigitRunAt(s, |head| + (i - |head|)) <==> DigitRunAt(body, i - |head|);
        assert HasCode(body);
      }
    }
  }

  /** In a longer digit run the first six digits are the code. */
  lemma LongerRunGivesFirstSix()
    ensures ExtractCode("1234567") == Some("123456")
  {
    var s := "1234567";
    assert s[0..6] == "123456";
    ExtractCodeIsLeftmost(s, 0);
  }

  /** A typical Apple SMS: the code follows text without digits. */
  lemma TypicalSmsGivesItsCode()
    ensures ExtractCode("Your Apple ID Code is: " + "482913" + ". Don't share it.") == Some("482913")
  {
    var head, code, tail := "Your Apple ID Code is: ", "482913", ". Don't share it.";
    assert code[0..6] == code;
    ExtractCodeIsLeftmost(code, 0);
    ExtractCodeIgnoresSuffix(code, tail);
    ExtractCodeIgnoresDigitFreePrefix(head, code + tail);
    assert head + code + tail == head + (code + tail);
  }

  /** Five digits are not a code, even when more digits follow after a gap. */
  lemma ShortRunsGiveNoCode()
    ensures ExtractCode("12345 67890") == None
  {
    var s := "12345 67890";
    forall j | 0 <= j ensures !DigitRunAt(s, j) {
      if j <= 5 && j + CodeLength <= |s| {
        assert s[j..j + CodeLength][5 - j] == ' ';
      }
    }
  }
}

/**
 * Formatting a notification (`send_to_telegram`): the OTP code is the
 * leftmost match of `\b\d{4,6}\b` in the text, or "Not found", and the
 * message goes into a fixed Markdown template whose body is the first 150
 * characters of the text followed by "...".  Digits and word characters
 * are the ASCII ones.
 */
module Notify {
  import opened Wrappers
  import opened Text
  import opened Scrape

  predicate IsDigit(c: char) {
    '0' <= c <= '9'
  }

  /** The characters `\w` accepts (ASCII letters, digits and underscore). */
  predicate IsWordChar(c: char) {
    IsDigit(c) || 'a' <= c <= 'z' || 'A' <= c <= 'Z' || c == '_'
  }

  /** `\b\d{4,6}\b` matches exactly `s[i..i + len]`. */
  predicate MatchAt(s: string, i: int, len: int) {
    4 <= len <= 6 && 0 <= i && i + len <= |s| &&
    (forall k :: i <= k < i + len ==> IsDigit(s[k])) &&
    (i == 0 || !IsWordChar(s[i - 1])) &&
    (i + len == |s| || !IsWordChar(s[i + len]))
  }

  /** The match `re.search` reports: no match starts further left. */
  ghost predicate IsLeftmostMatch(s: string, i: int, len: int) {
    MatchAt(s, i, len) && forall j, l :: 0 <= j < i ==> !MatchAt(s, j, l)
  }

  /** Length of the run of digits starting at `i`. */
  function DigitRun(s: string, i: nat): (n: nat)
    requires i <= |s|
    ensures i + n <= |s|
    ensures forall k :: i <= k < i + n ==> IsDigit(s[k])
    ensures i + n == |s| || !IsDigit(s[i + n])
    decreases |s| - i
  {
    if i < |s| && IsDigit(s[i]) then 1 + DigitRun(s, i + 1) else 0
  }

  /**
   * A match is a whole run of digits: it starts where the digits start and
   * covers all of them, so a run of seven or more digits holds no match.
   */
  lemma MatchIsWholeRun(s: string, i: nat, len: int)
    requires MatchAt(s, i, len)
    ensures DigitRun(s, i) == len
    ensures i == 0 || !IsDigit(s[i - 1])
  {
  }

  /** No match starts anywhere inside a run of seven or more digits. */
  lemma LongRunHasNoMatch(s: string, i: nat, j: int, len: int)
    requires i <= |s| && (i == 0 || !IsDigit(s[i - 1])) && DigitRun(s, i) >= 7
    requires i <= j < i + DigitRun(s, i)
    ensures !MatchAt(s, j, len)
  {
    if j == i && MatchAt(s, j, len) {
      MatchIsWholeRun(s, i, len);
    }
  }

  /** At one position, the regex engine's tries of lengths 6, 5, 4 find at most one. */
  function MatchLengthAt(s: string, i: nat): (r: Option<nat>)
    requires i <= |s|
    ensures r.Some? ==> MatchAt(s, i, r.value)
    ensures r.None? ==> forall len :: !MatchAt(s, i, len)
  {
    if i > 0 && IsWordChar(s[i - 1]) then None
    else
      var n := DigitRun(s, i);
      assert forall len :: MatchAt(s, i, len) ==> len == n by {
        forall len | MatchAt(s, i, len) ensures len == n {
          MatchIsWholeRun(s, i, len);
        }
      }
      if 4 <= n <= 6 && (i + n == |s| || !IsWordChar(s[i + n])) then Some(n) else None
  }

  /** Where a match lies in the text. */
  datatype CodeMatch = CodeMatch(start: nat, len: nat)

  /** The search from position `i` on, trying each start position in turn. */
  function SearchFrom(s: string, i: nat): (r: Option<CodeMatch>)
    requires i <= |s|
    ensures r.Some? ==> i <= r.value.start && MatchAt(s, r.value.start, r.value.len)
    ensures r.Some? ==> forall j, len :: i <= j < r.value.start ==> !MatchAt(s, j, len)
    ensures r.None? ==> forall j, len :: i <= j ==> !MatchAt(s, j, len)
    decreases |s| - i
  {
    match MatchLengthAt(s, i)
    case Some(n) => Some(CodeMatch(i, n))
    case None => if i == |s| then None else SearchFrom(s, i + 1)
  }

  /** `re.search(r'\b\d{4,6}\b', text)`: the leftmost match, if any. */
  function FindCode(text: string): (r: Option<CodeMatch>)
    ensures r.Some? ==> IsLeftmostMatch(text, r.value.start, r.value.len)
    ensures r.None? ==> forall j, len :: !MatchAt(text, j, len)
  {
    SearchFrom(text, 0)
  }

  /** A text has at most one leftmost match. */
  lemma LeftmostMatchUnique(s: string, i: int, len: int, i': int, len': int)
    requires IsLeftmostMatch(s, i, len) && IsLeftmostMatch(s, i', len')
    ensures i == i' && len == len'
  {
    MatchIsWholeRun(s, i, len);
    MatchIsWholeRun(s, i', len');
  }

  /**
   * No match starts inside a run of digits glued to a word character on
   * either side, whatever the run's length and whatever surrounds it.
   */
  lemma GluedRunHasNoMatch(s: string, i: nat, j: int, len: int)
    requires i <= |s| && (i == 0 || !IsDigit(s[i - 1]))
    requires (i > 0 && IsWordChar(s[i - 1])) || (i + DigitRun(s, i) < |s| && IsWordChar(s[i + DigitRun(s, i)]))
    requires i <= j < i + DigitRun(s, i)
    ensures !MatchAt(s, j, len)
  {
    if j == i && MatchAt(s, j, len) {
      MatchIsWholeRun(s, i, len);
    }
  }

  const NotFound: string := "Not found"

  /**
   * The code shown in the notification: digits the regex matched leftmost,
   * or "Not found" exactly when nothing matches.
   */
  function CodeText(text: string): (code: string)
    ensures code == NotFound <==> forall j, len :: !MatchAt(text, j, len)
    ensures code != NotFound ==>
      exists i :: IsLeftmostMatch(text, i, |code|) && text[i..i + |code|] == code
  {
    match FindCode(text)
    case Some(m) =>
      var code := text[m.start..m.start + m.len];
      assert code[0] == text[m.start] && IsDigit(code[0]);
      code
    case None => NotFound
  }

  /** After text without digits, a run of 4 to 6 digits ending at a non-word character is the code. */
  lemma CodeAfterDigitFreePrefix(prefix: string, digits: string, rest: string)
    requires forall k :: 0 <= k < |prefix| ==> !IsDigit(prefix[k])
    requires prefix == [] || !IsWordChar(prefix[|prefix| - 1])
    requires 4 <= |digits| <= 6 && forall k :: 0 <= k < |digits| ==> IsDigit(digits[k])
    requires rest == [] || !IsWordChar(rest[0])
    ensures CodeText(prefix + digits + rest) == digits
  {
    var s := prefix + digits + rest;
    var p := |prefix|;
    assert s[p..p + |digits|] == digits;
    assert MatchAt(s, p, |digits|);
    forall j, len | 0 <= j < p ensures !MatchAt(s, j, len) {
      assert s[j] == prefix[j];
    }
    assert IsLeftmostMatch(s, p, |digits|);
    if CodeText(s) == NotFound {
      assert false;
    } else {
      var i :| IsLeftmostMatch(s, i, |CodeText(s)|) && s[i..i + |CodeText(s)|] == CodeText(s);
      LeftmostMatchUnique(s, i, |CodeText(s)|, p, |digits|);
    }
  }

  /** Digits glued to a letter or `_` on either side give no code. */
  lemma GluedDigitsNoCode(letter: char, digits: string)
    requires IsWordChar(letter) && !IsDigit(letter) && 4 <= |digits| <= 6 && forall k :: 0 <= k < |digits| ==> IsDigit(digits[k])
    ensures CodeText([letter] + digits) == NotFound
    ensures CodeText(digits + [letter]) == NotFound
  {
    var s := [letter] + digits;
    assert s[0] == letter;
    forall j, len ensures !MatchAt(s, j, len) {
      if 1 < j <= |s| {
        assert s[j - 1] == digits[j - 2];
      }
    }
    var t := digits + [letter];
    assert t[|digits|] == letter;
    forall j, len ensures !MatchAt(t, j, len) {
      if 0 <= j + len < |digits| {
        assert t[j + len] == digits[j + len];
      }
    }
  }

  const BodyLimit: nat := 150

  /** `text[:150] + "..."`: the ellipsis is added whether or not anything was cut. */
  function MessageBody(text: string): (body: string)
    ensures |body| == (if |text| < BodyLimit then |text| else BodyLimit) + 3
    ensures body[..|body| - 3] == text[..|body| - 3] && body[|body| - 3..] == "..."
  {
    var n := if |text| < BodyLimit then |text| else BodyLimit;
    text[..n] + "..."
  }

  /** A short text is kept whole and still gets "..."; a long one is cut at 150 characters. */
  lemma MessageBodyCases(text: string)
    ensures |text| <= BodyLimit ==> MessageBody(text) == text + "..."
    ensures |text| > BodyLimit ==> MessageBody(text) == text[..BodyLimit] + "..."
  {
    var b := MessageBody(text);
    assert b == b[..|b| - 3] + b[|b| - 3..];
    if |text| <= BodyLimit {
      assert text[..|text|] == text;
    }
  }

  const Banner: string := "\n\U{1F510} *New OTP Received* \U{1F510}\n"

  /** The line carrying the code, as the template renders it. */
  function CodeLine(code: string): string {
    "\U{1F522} *OTP Code:* `" + code + "`\n"
  }

  const MessageLabel: string := "\U{1F4DD} *Message:*\n"

  /** The lines naming the sender, the client and the time. */
  function Details(m: Record): string {
    "\U{1F4DE} *From:* `" + m.number + "`\n" +
    "\U{1F464} *Client:* " + m.client + "\n" +
    "\U{1F552} *Time:* " + m.time + "\n"
  }

  /** The f-string `send_to_telegram` builds for one record. */
  function FormatMessage(m: Record): string {
    Banner + Details(m) + CodeLine(CodeText(m.text)) + MessageLabel + MessageBody(m.text) + "\n"
  }

  /**
   * A notification opens with the banner, shows the record's code on its
   * code line, and ends with the message body: the first 150 characters and "...".
   */
  lemma FormatMessageShape(m: Record)
    ensures StartsWith(FormatMessage(m), Banner)
    ensures Contains(FormatMessage(m), CodeLine(CodeText(m.text)))
    ensures exists head :: FormatMessage(m) == head + MessageBody(m.text) + "\n"
  {
    SixPieces(Banner, Details(m), CodeLine(CodeText(m.text)), MessageLabel, MessageBody(m.text), "\n");
  }
}

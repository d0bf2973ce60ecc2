/** Texts cut to a number of runes before they are sent: the task output, with a marker in the middle that
    says how much is missing, and the log line, with a suffix. Texts are sequences of runes. */
module BoundedText {

  function Digit(d: nat): char
    requires d < 10
  {
    "0123456789"[d]
  }

  /** `%d` of a number that is not negative. */
  function Decimal(n: nat): (s: string)
    ensures s != ""
  {
    if n < 10 then [Digit(n)] else Decimal(n / 10) + [Digit(n % 10)]
  }

  function DigitValue(c: char): nat {
    if '0' <= c <= '9' then c as nat - '0' as nat else 0
  }

  function ValueOf(s: string): nat {
    if s == "" then 0 else 10 * ValueOf(s[..|s| - 1]) + DigitValue(s[|s| - 1])
  }

  lemma {:induction false} DecimalReadsBack(n: nat)
    ensures ValueOf(Decimal(n)) == n
  {
    if n < 10 {
      assert [Digit(n)][..0] == "";
      assert DigitValue(Digit(n)) == n;
    } else {
      DecimalReadsBack(n / 10);
      var s := Decimal(n / 10) + [Digit(n % 10)];
      assert s[..|s| - 1] == Decimal(n / 10);
      assert DigitValue(Digit(n % 10)) == n % 10;
    }
  }

  function Marker(removed: nat): string {
    "\n...[truncated " + Decimal(removed) + " chars]...\n"
  }

  /** The marker as it reads, and the number in it. */
  lemma MarkerSays(removed: nat)
    ensures var m := Marker(removed);
      && |m| > 26 && m[..15] == "\n...[truncated " && m[|m| - 11..] == " chars]...\n"
      && ValueOf(m[15..|m| - 11]) == removed
      && (forall k :: 15 <= k < |m| - 11 ==> '0' <= m[k] <= '9')
      && (removed > 0 ==> m[15] != '0')
  {
    var m := Marker(removed);
    var front, back := "\n...[truncated ", " chars]...\n";
    assert |front| == 15 && |back| == 11;
    assert m[..15] == front && m[|m| - 11..] == back && m[15..|m| - 11] == Decimal(removed);
    DecimalReadsBack(removed);
    DecimalDigits(removed);
    forall k | 15 <= k < |m| - 11 ensures '0' <= m[k] <= '9' { assert m[k] == Decimal(removed)[k - 15]; }
  }

  lemma {:induction false} DecimalDigits(n: nat)
    ensures forall k :: 0 <= k < |Decimal(n)| ==> '0' <= Decimal(n)[k] <= '9'
    ensures n > 0 ==> Decimal(n)[0] != '0'
  {
    if n >= 10 { DecimalDigits(n / 10); }
  }

  datatype Truncation = Truncation(text: string, cut: bool)

  function TruncateTaskOutput(output: string, maxChars: int): Truncation {
    if maxChars <= 0 || |output| <= maxChars then Truncation(output, false)
    else
      var marker := Marker(|output| - maxChars);
      if |marker| >= maxChars then Truncation(output[..maxChars], true)
      else
        var remaining := maxChars - |marker|;
        var head := remaining / 2;
        var tail := remaining - head;
        Truncation(output[..head] + marker + output[|output| - tail..], true)
  }

  /** The result has exactly as many runes as allowed, or as there are; it is cut exactly when there are
      more; and cutting it again changes nothing. */
  lemma TruncationLength(output: string, maxChars: int)
    requires maxChars > 0
    ensures var r := TruncateTaskOutput(output, maxChars);
      && |r.text| == (if |output| <= maxChars then |output| else maxChars)
      && (r.cut <==> |output| > maxChars)
      && (!r.cut ==> r.text == output)
      && TruncateTaskOutput(r.text, maxChars) == Truncation(r.text, false)
  {}

  /** A cut text is a true prefix, the marker and a true suffix when the marker fits, the suffix as long as the
      prefix or one rune longer; and a true prefix alone when it does not. */
  lemma TruncationShape(output: string, maxChars: int) returns (head: nat, tail: nat)
    requires 0 < maxChars < |output|
    ensures var r := TruncateTaskOutput(output, maxChars).text;
      var marker := Marker(|output| - maxChars);
      if |marker| < maxChars then
        && head + |marker| + tail == maxChars && head <= tail <= head + 1
        && head + tail < |output|
        && r[..head] == output[..head]
        && r[head..head + |marker|] == marker
        && r[head + |marker|..] == output[|output| - tail..]
      else r == output[..maxChars]
  {
    var marker := Marker(|output| - maxChars);
    if |marker| < maxChars {
      head := (maxChars - |marker|) / 2;
      tail := maxChars - |marker| - head;
      var r := TruncateTaskOutput(output, maxChars).text;
      assert r == output[..head] + marker + output[|output| - tail..];
    } else {
      head, tail := 0, 0;
    }
  }

  /** The number in the marker is the excess over the limit. Since the marker takes room itself, more runes
      are missing than it says: as many more as it is long, so it is never exact. */
  lemma MarkerUnderstates(output: string, maxChars: int)
    requires 0 < maxChars < |output| && |Marker(|output| - maxChars)| < maxChars
    ensures var r := TruncateTaskOutput(output, maxChars).text;
      var marker := Marker(|output| - maxChars);
      var kept := |r| - |marker|;
      && ValueOf(Decimal(|output| - maxChars)) == |output| - maxChars
      && |output| - kept == (|output| - maxChars) + |marker|
      && |marker| >= 27
  {
    hide Decimal, ValueOf;
    DecimalReadsBack(|output| - maxChars);
    TruncationLength(output, maxChars);
    assert |"\n...[truncated "| == 15 && |" chars]...\n"| == 11;
  }

  const LOG_LINE_MAX: nat := 5000
  const LOG_SUFFIX: string := "...[truncated]"

  method NormalizeTaskLogLine(line: string) returns (r: string)
    ensures |line| <= 5000 ==> r == line
    ensures |line| > 5000 ==> |r| == 5000 && r == line[..4986] + "...[truncated]"
  {
    var runeCount := 0;
    for k := 0 to |line|
      invariant runeCount == k
    {
      runeCount := runeCount + 1;
    }
    if runeCount <= LOG_LINE_MAX {
      return line;
    }
    var suffixRunes := 0;
    for k := 0 to |LOG_SUFFIX|
      invariant suffixRunes == k
    {
      suffixRunes := suffixRunes + 1;
    }
    var maxPrefixRunes := LOG_LINE_MAX - suffixRunes;
    if maxPrefixRunes < 0 {
      maxPrefixRunes := 0;
    }
    var builder := "";
    var prefixRunes := 0;
    while prefixRunes < |line|
      invariant 0 <= prefixRunes <= maxPrefixRunes < |line|
      invariant builder == line[..prefixRunes]
    {
      if prefixRunes >= maxPrefixRunes {
        break;
      }
      builder := builder + [line[prefixRunes]];
      prefixRunes := prefixRunes + 1;
    }
    r := builder + LOG_SUFFIX;
  }
}

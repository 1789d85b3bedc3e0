/**
 * The text of one output line of the listing: the colour marker pair, the
 * Display forms of a bool and of an unsigned integer, and the line itself.
 * `ParseTail` reads the marker, the read-only flag and the size back out of
 * a line, which shows that those three are recoverable from what is printed.
 */
module Format {
  import opened Records

  /** ANSI "set foreground green", written before the line of a running image. */
  const Green: string := "\U{1b}[32m"

  /** ANSI "reset attributes", written after the line of a running image. */
  const Reset: string := "\U{1b}[m"

  predicate StartsWith(s: string, prefix: string)
  {
    |prefix| <= |s| && s[..|prefix|] == prefix
  }

  predicate EndsWith(s: string, suffix: string)
  {
    |suffix| <= |s| && s[|s| - |suffix|..] == suffix
  }

  /** The escape pair around a line: green/reset for a running image, empty otherwise. */
  function Marker(running: bool): (string, string)
  {
    if running then (Green, Reset) else ("", "")
  }

  /** How a bool is displayed. */
  function BoolText(b: bool): string
  {
    if b then "true" else "false"
  }

  predicate IsDigit(c: char)
  {
    '0' <= c <= '9'
  }

  predicate AllDigits(s: string)
  {
    forall i :: 0 <= i < |s| ==> IsDigit(s[i])
  }

  function DigitChar(d: nat): (c: char)
    requires d < 10
    ensures IsDigit(c)
  {
    ('0' as int + d) as char
  }

  /** How an unsigned integer is displayed: its decimal digits, without leading zeros. */
  function Decimal(n: nat): (s: string)
    ensures |s| >= 1 && AllDigits(s)
    ensures s[0] == '0' ==> n == 0
    ensures n == 0 ==> s == "0"
    decreases n
  {
    if n < 10 then [DigitChar(n)] else Decimal(n / 10) + [DigitChar(n % 10)]
  }

  /** The number a string of decimal digits denotes. */
  function DecimalValue(s: string): nat
    requires AllDigits(s)
  {
    if s == [] then 0 else DecimalValue(s[..|s| - 1]) * 10 + (s[|s| - 1] as int - '0' as int)
  }

  /** Reading the decimal text of `n` gives back `n`. */
  lemma {:induction false} DecimalRoundTrip(n: nat)
    ensures DecimalValue(Decimal(n)) == n
    decreases n
  {
    if n >= 10 {
      var s := Decimal(n);
      assert s[..|s| - 1] == Decimal(n / 10);
      DecimalRoundTrip(n / 10);
    }
  }

  /** The line printed for `img`; `running` says whether a machine of its name runs. */
  function Line(img: Image, running: bool): string
  {
    var (ca, cb) := Marker(running);
    ca + img.name + " " + img.t + " " + BoolText(img.ro) + " " + Decimal(img.size as nat) + cb
  }

  /** The position of the last space in `s`, if there is one. */
  function LastSpace(s: string): (r: Option<nat>)
    ensures r.Some? ==> r.value < |s| && s[r.value] == ' '
    ensures r.Some? ==> forall i :: r.value < i < |s| ==> s[i] != ' '
    ensures r.None? ==> forall i :: 0 <= i < |s| ==> s[i] != ' '
  {
    if s == [] then None
    else if s[|s| - 1] == ' ' then Some(|s| - 1)
    else LastSpace(s[..|s| - 1])
  }

  /** What can be read back from the end of a line. */
  datatype Tail = Tail(running: bool, ro: bool, size: nat)

  /**
   * Reads a line from its end: a trailing reset marks a running image, the
   * digits after the last space are the size, and the word before that space
   * is the read-only flag. The name and type may themselves hold spaces, so
   * they are not read back.
   */
  function ParseTail(line: string): Option<Tail>
  {
    var running := EndsWith(line, Reset);
    var body := if running then line[..|line| - |Reset|] else line;
    match LastSpace(body)
    case None => None
    case Some(p) =>
      var digits := body[p + 1..];
      var head := body[..p];
      if digits == [] || !AllDigits(digits) then None
      else if EndsWith(head, " true") then Some(Tail(running, true, DecimalValue(digits)))
      else if EndsWith(head, " false") then Some(Tail(running, false, DecimalValue(digits)))
      else None
  }

  /**
   * A line carries the colour pair exactly when its image is running: it then
   * starts with the green escape and ends with the reset escape; otherwise it
   * ends with the last digit of the size, never with the reset escape.
   */
  lemma LineMarkedIffRunning(img: Image, running: bool)
    ensures EndsWith(Line(img, running), Reset) <==> running
    ensures running ==> StartsWith(Line(img, running), Green)
    ensures !running ==> Line(img, running) == img.name + " " + img.t + " " + BoolText(img.ro)
                                               + " " + Decimal(img.size as nat)
  {
    var d := Decimal(img.size as nat);
    var line := Line(img, running);
    if running {
      assert line[|line| - |Reset|..] == Reset;
      assert line[..|Green|] == Green;
    } else {
      assert line[|line| - 1] == d[|d| - 1];
      assert IsDigit(d[|d| - 1]);
    }
  }

  /** In `head + " " + digits` the last space is the one before the digits. */
  lemma {:induction false} LastSpaceBeforeDigits(head: string, digits: string)
    requires AllDigits(digits)
    ensures LastSpace(head + " " + digits) == Some(|head|)
    decreases |digits|
  {
    var body := head + " " + digits;
    if digits != [] {
      var init := digits[..|digits| - 1];
      assert body[|body| - 1] == digits[|digits| - 1];
      assert IsDigit(digits[|digits| - 1]);
      assert body[..|body| - 1] == head + " " + init;
      LastSpaceBeforeDigits(head, init);
    } else {
      assert body[|body| - 1] == ' ';
    }
  }

  /** The word before the size tells the read-only flag. */
  lemma FlagWord(head: string, ro: bool)
    ensures EndsWith(head + " " + BoolText(ro), " true") <==> ro
    ensures !ro ==> EndsWith(head + " " + BoolText(ro), " false")
  {
  }

  /** The marker, the read-only flag and the size are read back from every line. */
  lemma LineTailRoundTrip(img: Image, running: bool)
    ensures ParseTail(Line(img, running)) == Some(Tail(running, img.ro, img.size as nat))
  {
    var (ca, cb) := Marker(running);
    var d := Decimal(img.size as nat);
    var head := ca + img.name + " " + img.t + " " + BoolText(img.ro);
    var body := head + " " + d;
    var line := Line(img, running);
    assert line == body + cb;
    LineMarkedIffRunning(img, running);
    assert (if EndsWith(line, Reset) then line[..|line| - |Reset|] else line) == body;
    LastSpaceBeforeDigits(head, d);
    assert body[|head| + 1..] == d;
    assert body[..|head|] == head;
    FlagWord(ca + img.name + " " + img.t, img.ro);
    DecimalRoundTrip(img.size as nat);
  }
}

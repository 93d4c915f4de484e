/**
 * Names of the capture files of one sequence: p<person>g<gesture>c<camera>.mp4
 * with three, two and two zero-padded decimal digits. Building a name
 * formats the three numbers; reading the folder keeps the .mp4 files and
 * recognises a name by its last fourteen characters.
 */
module CaptureNames {
  import opened Wrappers

  datatype Capture = Capture(person: int, gesture: int, camera: int)

  predicate IsDigit(ch: char) { '0' <= ch <= '9' }

  predicate AllDigits(s: string) {
    forall i :: 0 <= i < |s| ==> IsDigit(s[i])
  }

  function Digit(d: int): (ch: char)
    requires 0 <= d <= 9
    ensures IsDigit(ch)
  {
    ('0' as int + d) as char
  }

  function DigitValue(ch: char): (d: int)
    requires IsDigit(ch)
    ensures 0 <= d <= 9 && Digit(d) == ch
  {
    ch as int - '0' as int
  }

  function Pow10(w: nat): (r: nat)
    ensures r >= 1
  {
    if w == 0 then 1 else 10 * Pow10(w - 1)
  }

  /**
   * '{:0wd}'.format(n) for a number below 10^w: its decimal digits,
   * zero-padded on the left to exactly w. (Python's width is a minimum; the
   * program only formats numbers it parsed from that many digits.)
   */
  function Padded(n: nat, w: nat): (s: string)
    requires n < Pow10(w)
    ensures |s| == w && AllDigits(s)
  {
    if w == 0 then "" else Padded(n / 10, w - 1) + [Digit(n % 10)]
  }

  /** int(s) for a string of decimal digits; it has at most |s| digits. */
  function ValueOf(s: string): (v: nat)
    requires AllDigits(s)
    ensures v < Pow10(|s|)
  {
    if s == [] then 0 else 10 * ValueOf(s[..|s| - 1]) + DigitValue(s[|s| - 1])
  }

  /** Reading back a zero-padded number gives the number, when it fits in w digits. */
  lemma {:induction false} PaddedValue(n: nat, w: nat)
    requires n < Pow10(w)
    ensures ValueOf(Padded(n, w)) == n
  {
    if w > 0 {
      PaddedValue(n / 10, w - 1);
      var s := Padded(n, w);
      assert s[..|s| - 1] == Padded(n / 10, w - 1);
    }
  }

  /** A digit string is the padded form of its value, and that value fits in its width. */
  lemma {:induction false} ValuePadded(s: string)
    requires AllDigits(s)
    ensures Padded(ValueOf(s), |s|) == s
  {
    if s != [] {
      var t, d := s[..|s| - 1], DigitValue(s[|s| - 1]);
      ValuePadded(t);
      var v := ValueOf(s);
      assert v == 10 * ValueOf(t) + d;
      assert v / 10 == ValueOf(t);
      assert v % 10 == d;
      assert Padded(v, |s|) == Padded(ValueOf(t), |t|) + [Digit(d)];
      assert s == t + [s[|s| - 1]];
    }
  }

  /** Numbers that fit the three fields: what a parsed name yields. */
  predicate Formattable(c: Capture) {
    0 <= c.person <= 999 && 0 <= c.gesture <= 99 && 0 <= c.camera <= 99
  }

  /** 'p{:03d}g{:02d}c{:02d}.mp4'.format(person, gesture, camera), for parsed numbers. */
  function Name(c: Capture): (s: string)
    requires Formattable(c)
    ensures |s| == 14
  {
    "p" + Padded(c.person, 3) + "g" + Padded(c.gesture, 2) + "c" + Padded(c.camera, 2) + ".mp4"
  }

  /** Where each field of a formatted name sits. */
  lemma NameFields(c: Capture)
    requires Formattable(c)
    ensures var n := Name(c);
      && n[0] == 'p' && n[1..4] == Padded(c.person, 3) && n[4] == 'g'
      && n[5..7] == Padded(c.gesture, 2) && n[7] == 'c' && n[8..10] == Padded(c.camera, 2)
      && n[10..] == ".mp4"
  {
    var a, b, d := Padded(c.person, 3), Padded(c.gesture, 2), Padded(c.camera, 2);
    var n := Name(c);
    assert n == ['p'] + a + ['g'] + b + ['c'] + d + ".mp4";
    assert n[1..4] == a;
    assert n[5..7] == b;
    assert n[8..10] == d;
  }

  /** Only files whose name ends in .mp4 are considered. */
  predicate IsVideoFile(name: string) {
    |name| >= 4 && name[|name| - 4..] == ".mp4"
  }

  /**
   * The fourteen characters m against p([0-9]{3})g([0-9]{2})c([0-9]{2}).mp4,
   * with the three groups as integers. The unescaped '.' matches any
   * character but a newline.
   */
  function MatchFields(m: string): (r: Option<Capture>)
    requires |m| == 14
    ensures r.Some? ==> Formattable(r.value)
    ensures r.Some? ==> m[0] == 'p' && m[4] == 'g' && m[7] == 'c' && m[10] != '\n' && m[11..] == "mp4"
  {
    if m[0] == 'p' && AllDigits(m[1..4]) && m[4] == 'g' && AllDigits(m[5..7])
       && m[7] == 'c' && AllDigits(m[8..10]) && m[10] != '\n' && m[11..] == "mp4"
    then Some(Capture(ValueOf(m[1..4]), ValueOf(m[5..7]), ValueOf(m[8..10])))
    else None
  }

  /**
   * re.search(r'p([0-9]{3})g([0-9]{2})c([0-9]{2}).mp4$', name) and its three
   * groups as integers. The pattern has a fixed length of fourteen and '$'
   * matches at the end of the name or just before a final newline, so the
   * only candidates are the last fourteen characters and, when the name ends
   * in a newline, the fourteen before it. At most one of the two can match,
   * since a match ends in '4'. Anything may come before the match.
   */
  function MatchCaptureName(name: string): (r: Option<Capture>)
    ensures r.Some? ==> Formattable(r.value) && |name| >= 14
  {
    if |name| < 14 then None
    else
      var last := MatchFields(name[|name| - 14..]);
      if last.Some? || name[|name| - 1] != '\n' then last
      else if |name| >= 15 then MatchFields(name[|name| - 15..|name| - 1])
      else None
  }

  /**
   * What reading the folder makes of a file name: skipped, or a capture. The
   * .mp4 filter leaves the pattern's '.' only a literal dot to match, and
   * removes the names '$' would match before a final newline.
   */
  function ParseCapture(name: string): (r: Option<Capture>)
    ensures r.Some? ==> Formattable(r.value) && |name| >= 14 && name[|name| - 4..] == ".mp4"
    ensures r.Some? ==> r == MatchFields(name[|name| - 14..])
  {
    if IsVideoFile(name) then MatchCaptureName(name) else None
  }

  /** A formatted name, after any prefix, parses back to the same three numbers. */
  lemma NameRoundTrip(prefix: string, c: Capture)
    requires Formattable(c)
    ensures ParseCapture(prefix + Name(c)) == Some(c)
  {
    var name := prefix + Name(c);
    var m := name[|name| - 14..];
    assert m == Name(c);
    NameFields(c);
    assert name[|name| - 4..] == m[10..] == ".mp4";
    assert m[11..] == "mp4";
    PaddedValue(c.person, 3);
    PaddedValue(c.gesture, 2);
    PaddedValue(c.camera, 2);
  }

  /** A name that parses ends in the formatted name of what it parsed to. */
  lemma ParsedNameIsFormatted(name: string)
    requires ParseCapture(name).Some?
    ensures Formattable(ParseCapture(name).value)
    ensures name == name[..|name| - 14] + Name(ParseCapture(name).value)
  {
    var m := name[|name| - 14..];
    ValuePadded(m[1..4]);
    ValuePadded(m[5..7]);
    ValuePadded(m[8..10]);
    var c := ParseCapture(name).value;
    assert m[10..] == name[|name| - 4..] == ".mp4";
    NameFields(c);
    var n := Name(c);
    assert m[1..4] == n[1..4] && m[5..7] == n[5..7] && m[8..10] == n[8..10];
    assert forall i :: 0 <= i < 14 ==> m[i] == n[i] by {
      forall i | 0 <= i < 14 ensures m[i] == n[i] {
        if 1 <= i < 4 { assert m[i] == m[1..4][i - 1]; assert n[i] == n[1..4][i - 1]; }
        else if 5 <= i < 7 { assert m[i] == m[5..7][i - 5]; assert n[i] == n[5..7][i - 5]; }
        else if 8 <= i < 10 { assert m[i] == m[8..10][i - 8]; assert n[i] == n[8..10][i - 8]; }
        else if 10 <= i { assert m[i] == m[10..][i - 10]; assert n[i] == n[10..][i - 10]; }
      }
    }
    assert m == n;
    assert name == name[..|name| - 14] + m;
  }

  /** The values of the digit groups of p001g02c03. */
  lemma SampleDigits()
    ensures ValueOf("001") == 1 && ValueOf("02") == 2 && ValueOf("03") == 3
  {
    assert "001"[..2] == "00" && "00"[..1] == "0" && "0"[..0] == "";
    assert "02"[..1] == "0" && "03"[..1] == "0";
    assert ValueOf("0") == 0 && ValueOf("00") == 0;
  }

  /** Without the .mp4 filter the pattern's '.' would let other names through. */
  lemma WildcardNeedsFilter()
    ensures MatchCaptureName("p001g02c03_mp4") == Some(Capture(1, 2, 3))
    ensures ParseCapture("p001g02c03_mp4") == None
  {
    var m := "p001g02c03_mp4";
    assert m[1..4] == "001";
    assert m[5..7] == "02";
    assert m[8..10] == "03";
    assert m[11..] == "mp4";
    SampleDigits();
  }

  /** The pattern's '.' does not match a newline. */
  lemma DotSkipsNewline()
    ensures MatchCaptureName("p001g02c03\nmp4") == None
  {
    var m := "p001g02c03\nmp4";
    assert m[10] == '\n' && m[13] != '\n';
  }

  /** '$' also matches before a final newline; only the .mp4 filter skips such a name. */
  lemma DollarBeforeNewline()
    ensures MatchCaptureName("p001g02c03.mp4\n") == Some(Capture(1, 2, 3))
    ensures ParseCapture("p001g02c03.mp4\n") == None
  {
    var name := "p001g02c03.mp4\n";
    assert name[1..] == "001g02c03.mp4\n";
    var m := name[..14];
    assert name[|name| - 15..|name| - 1] == m == "p001g02c03.mp4";
    assert m[1..4] == "001";
    assert m[5..7] == "02";
    assert m[8..10] == "03";
    assert m[11..] == "mp4";
    SampleDigits();
  }
}

/**
 * String helpers of the backup script: prefix and substring tests, the
 * decimal rendering behind `format_hhmmss`, and `normalize_rel_path`
 * (internxt_backup.py:120-132) together with the path-sequence view used by
 * the rest of the model.
 */
module Text {
  import opened Wrappers

  /** `s.startswith(p)` */
  predicate HasPrefix(s: string, p: string) {
    |p| <= |s| && s[..|p|] == p
  }

  predicate OccursAt(s: string, sub: string, i: nat) {
    i + |sub| <= |s| && s[i..i + |sub|] == sub
  }

  /** Python's `sub in s` for strings. */
  predicate Contains(s: string, sub: string) {
    exists i: nat :: i <= |s| && OccursAt(s, sub, i)
  }

  /** Index of the first occurrence of `c`, if any. */
  function IndexOf(s: string, c: char): (r: Option<nat>)
    ensures r.Some? ==> r.value < |s| && s[r.value] == c && c !in s[..r.value]
    ensures r.None? ==> c !in s
  {
    if |s| == 0 then None
    else if s[0] == c then Some(0)
    else
      match IndexOf(s[1..], c)
      case None => None
      case Some(k) => assert s[1..][..k] == s[1..k + 1]; Some(k + 1)
  }

  // ---------------------------------------------------------------------
  // Decimal digits

  predicate IsDigit(c: char) { '0' <= c <= '9' }

  predicate AllDigits(s: string) {
    forall i :: 0 <= i < |s| ==> IsDigit(s[i])
  }

  function DigitChar(d: nat): (c: char)
    requires d < 10
    ensures IsDigit(c) && (c as int) - ('0' as int) == d
  {
    ('0' as int + d) as char
  }

  /** The number a string of decimal digits denotes (leading zeros allowed). */
  function Value(s: string): nat
    requires AllDigits(s)
  {
    if s == [] then 0 else Value(s[..|s| - 1]) * 10 + ((s[|s| - 1] as int) - ('0' as int))
  }

  /** Python's `str(n)` for a non-negative int. */
  function Digits(n: nat): (r: string)
    ensures |r| >= 1 && AllDigits(r)
    ensures n > 0 ==> r[0] != '0'
  {
    if n < 10 then [DigitChar(n)] else Digits(n / 10) + [DigitChar(n % 10)]
  }

  lemma {:induction false} DigitsValue(n: nat)
    ensures Value(Digits(n)) == n
  {
    if n >= 10 {
      DigitsValue(n / 10);
      var r := Digits(n);
      assert r[..|r| - 1] == Digits(n / 10);
    }
  }

  /** `f"{n:02d}"`: at least two digits, zero padded on the left. */
  function Pad2(n: nat): (r: string)
    ensures AllDigits(r) && Value(r) == n
    ensures n < 100 ==> |r| == 2
    ensures |r| > 2 ==> r[0] != '0'
  {
    if n < 10 then
      var r := ['0', DigitChar(n)];
      assert r[..1] == ['0'] && Value(['0']) == 0;
      assert r[..1][..0] == [];
      r
    else
      DigitsValue(n);
      var r := Digits(n);
      assert n < 100 ==> r == Digits(n / 10) + [DigitChar(n % 10)] && |Digits(n / 10)| == 1;
      r
  }

  /**
   * `r` reads as `t` seconds on a clock: hours, ':', two-digit minutes below
   * 60, ':', two-digit seconds below 60, adding up to `t`. Below 100 hours
   * the hours field is two digits too, exactly `hh:mm:ss`; a longer hours
   * field has no leading zero, as `{h:02d}` writes it.
   */
  predicate ReadsAsClock(r: string, t: int) {
    && |r| >= 8 && r[|r| - 6] == ':' && r[|r| - 3] == ':'
    && AllDigits(r[..|r| - 6]) && AllDigits(r[|r| - 5..|r| - 3]) && AllDigits(r[|r| - 2..])
    && Value(r[|r| - 5..|r| - 3]) < 60 && Value(r[|r| - 2..]) < 60
    && Value(r[..|r| - 6]) * 3600 + Value(r[|r| - 5..|r| - 3]) * 60 + Value(r[|r| - 2..]) == t
    && (t < 360000 ==> |r| == 8)
    && (|r| > 8 ==> r[0] != '0')
  }

  /** The three padded fields of `t` seconds, joined by colons. */
  function Clock(t: nat): string {
    Pad2(t / 3600) + ":" + Pad2((t % 3600) / 60) + ":" + Pad2(t % 60)
  }

  /**
   * `format_hhmmss` (internxt_backup.py:120-128) on whole seconds; `None`
   * and non-positive inputs give "00:00:00". The result reads back as the
   * input on a clock.
   */
  function FormatHhmmss(seconds: Option<int>): (r: string)
    ensures ReadsAsClock(r, if seconds.Some? && seconds.value > 0 then seconds.value else 0)
    ensures seconds.None? || seconds.value <= 0 ==> r == "00:00:00"
  {
    var total := if seconds.Some? && seconds.value > 0 then seconds.value else 0;
    ClockReadsBack(total);
    Clock(total)
  }

  /** The three padded fields, joined by colons, read back as the total. */
  lemma ClockReadsBack(t: nat)
    ensures ReadsAsClock(Clock(t), t)
  {
    ClockSplit(t);
    var hs, ms, ss := Pad2(t / 3600), Pad2((t % 3600) / 60), Pad2(t % 60);
    ClockLayout(hs, ms, ss);
  }

  /** Where the three fields of `hh:mm:ss` sit, for two-character minutes and seconds. */
  lemma ClockLayout(hs: string, ms: string, ss: string)
    requires |ms| == 2 && |ss| == 2
    ensures var r := hs + ":" + ms + ":" + ss;
      && |r| == |hs| + 6 && r[|r| - 6] == ':' && r[|r| - 3] == ':'
      && r[..|r| - 6] == hs && r[|r| - 5..|r| - 3] == ms && r[|r| - 2..] == ss
      && (|hs| > 0 ==> r[0] == hs[0])
  {
  }

  /** Whole hours, the minutes and the seconds left add up to the total. */
  lemma ClockSplit(t: nat)
    ensures (t % 3600) / 60 < 60 && t % 60 < 60
    ensures (t / 3600) * 3600 + ((t % 3600) / 60) * 60 + t % 60 == t
    ensures t < 360000 ==> t / 3600 < 100
  {
    var q, r := t / 3600, t % 3600;
    var m, s := r / 60, r % 60;
    assert r == 60 * m + s;
    assert t == 60 * (60 * q + m) + s;
    assert t % 60 == s by {
      ModSixty(t, 60 * q + m, s);
    }
  }

  lemma ModSixty(t: int, k: int, s: int)
    requires t == 60 * k + s && 0 <= s < 60
    ensures t % 60 == s
  {
  }

  // ---------------------------------------------------------------------
  // Relative paths

  /** `os.path.join(a, b)` on a POSIX system. */
  function PosixJoin(a: string, b: string): string {
    if HasPrefix(b, "/") then b
    else if a == [] || a[|a| - 1] == '/' then a + b
    else a + "/" + b
  }

  /** `normalize_rel_path` (internxt_backup.py:131-132). */
  function NormalizeRelPath(parent: string, name: string): string {
    if parent == "." then name else PosixJoin(parent, name)
  }

  /** A relative path as the sequence of its components; the root "." is []. */
  type Path = seq<string>

  /** A directory or file name as the file system hands it out. */
  predicate ValidName(n: string) {
    n != [] && n != "." && '/' !in n
  }

  predicate ValidPath(p: Path) {
    forall i :: 0 <= i < |p| ==> ValidName(p[i])
  }

  function Parent(p: Path): Path
    requires p != []
  {
    p[..|p| - 1]
  }

  function Last(p: Path): string
    requires p != []
  {
    p[|p| - 1]
  }

  /** The "/"-joined string form of a path, "." for the root. */
  function Render(p: Path): string
  {
    if p == [] then "."
    else if |p| == 1 then p[0]
    else Render(Parent(p)) + "/" + Last(p)
  }

  lemma {:induction false} RenderShape(p: Path)
    requires p != [] && ValidPath(p)
    ensures Render(p) != [] && Render(p) != "." && Render(p)[|Render(p)| - 1] != '/'
  {
    if |p| > 1 {
      RenderShape(Parent(p));
    }
  }

  /**
   * Joining a path with `normalize_rel_path` and extending the component
   * sequence agree for names the file system can produce.
   */
  lemma NormalizeRelPathIsAppend(p: Path, n: string)
    requires ValidPath(p) && ValidName(n)
    ensures Render(p + [n]) == NormalizeRelPath(Render(p), n)
  {
    var q := p + [n];
    assert Parent(q) == p && Last(q) == n;
    if p != [] {
      RenderShape(p);
      assert !HasPrefix(n, "/") by { assert n[0] != '/'; }
    }
  }
}

/**
 * The version arithmetic and small helpers of the release scripts
 * (release/release_utils.py, Python 2).
 *
 * A dotted version "a.b[.c[.d]]" is encoded as a*1000 + b*100 + c*10 + d.
 * Python's int(), str() and str.split are written out below, since the
 * encoding depends on exactly which strings they accept.
 */
module ReleaseUtils {
  import opened Wrappers

  // ---------------------------------------------------------------------
  // Python string primitives
  // ---------------------------------------------------------------------

  predicate IsDigit(c: char) { '0' as int <= c as int <= '9' as int }

  /** The characters str.strip() removes (ASCII whitespace, Python 2 str). */
  predicate IsSpace(c: char) { c == ' ' || 9 <= c as int <= 13 }

  predicate AllDigits(s: string) { forall i :: 0 <= i < |s| ==> IsDigit(s[i]) }

  function DigitChar(d: nat): (c: char)
    requires d < 10
    ensures IsDigit(c) && c as int - '0' as int == d
  {
    ('0' as int + d) as char
  }

  /** The value of a run of decimal digits, most significant first. */
  function DigitsValue(s: string): nat
    requires AllDigits(s)
  {
    if s == [] then 0
    else
      assert AllDigits(s[..|s| - 1]) by { assert forall i :: 0 <= i < |s| - 1 ==> s[..|s| - 1][i] == s[i]; }
      var last := s[|s| - 1];
      assert IsDigit(last);
      DigitsValue(s[..|s| - 1]) * 10 + (last as int - '0' as int)
  }

  /** Python's str(n) for a non-negative int: digits without leading zeros. */
  function NatToString(n: nat): (r: string)
    ensures |r| >= 1 && AllDigits(r)
    ensures DigitsValue(r) == n
    ensures r[0] == '0' ==> n == 0
    ensures '.' !in r
  {
    if n < 10 then [DigitChar(n)]
    else
      var r := NatToString(n / 10) + [DigitChar(n % 10)];
      assert r[..|r| - 1] == NatToString(n / 10);
      r
  }

  function TrimLeft(s: string): (r: string)
    ensures |r| <= |s|
    ensures |r| > 0 ==> !IsSpace(r[0])
  {
    if |s| > 0 && IsSpace(s[0]) then TrimLeft(s[1..]) else s
  }

  function TrimRight(s: string): (r: string)
    ensures |r| <= |s|
    ensures |r| > 0 ==> !IsSpace(r[|r| - 1])
  {
    if |s| > 0 && IsSpace(s[|s| - 1]) then TrimRight(s[..|s| - 1]) else s
  }

  /** Python's str.strip() with no argument. */
  function Strip(s: string): string { TrimRight(TrimLeft(s)) }

  /**
   * The stripped text Python 2's int() accepts: a run of decimal digits,
   * or a sign followed by such a run, with whitespace allowed between the
   * sign and the digits (PyOS_strtol skips the sign, then PyOS_strtoul
   * skips whitespace again).
   */
  predicate IsIntText(t: string)
  {
    || (|t| > 0 && AllDigits(t))
    || (|t| > 0 && (t[0] == '-' || t[0] == '+') && |TrimLeft(t[1..])| > 0 && AllDigits(TrimLeft(t[1..])))
  }

  /** Python 2's int(x) on a str: surrounding whitespace is ignored; any other text raises ValueError. */
  function ParseInt(x: string): (r: Result<int>)
    ensures r.Err? ==> r.error == "ValueError"
  {
    var t := Strip(x);
    if |t| > 0 && (t[0] == '-' || t[0] == '+') then
      var digits := TrimLeft(t[1..]);
      if |digits| > 0 && AllDigits(digits) then
        Ok(if t[0] == '-' then -(DigitsValue(digits) as int) else DigitsValue(digits))
      else Err("ValueError")
    else if |t| > 0 && AllDigits(t) then Ok(DigitsValue(t))
    else Err("ValueError")
  }

  /** int() accepts exactly the integer texts, and only a leading minus gives a negative value. */
  lemma ParseIntAccepts(x: string)
    ensures ParseInt(x).Ok? <==> IsIntText(Strip(x))
    ensures ParseInt(x).Ok? && ParseInt(x).value < 0 ==> Strip(x)[0] == '-'
  {
  }

  /** Whitespace between the sign and the digits is skipped: int("- 3") is -3. */
  lemma SpaceAfterSign(d: string)
    requires |d| > 0 && AllDigits(d)
    ensures ParseInt("- " + d) == Ok(-(DigitsValue(d) as int))
  {
    var s := "- " + d;
    assert s[0] == '-' && s[1..] == " " + d;
    assert s[|s| - 1] == d[|d| - 1];
    SignSpaceDigits(s, d);
  }

  lemma SignSpaceDigits(s: string, d: string)
    requires |d| > 0 && AllDigits(d)
    requires |s| > 0 && s[0] == '-' && s[1..] == " " + d && s[|s| - 1] == d[|d| - 1]
    ensures ParseInt(s) == Ok(-(DigitsValue(d) as int))
  {
    assert IsDigit(d[0]) && IsDigit(d[|d| - 1]);
    StripUnspaced(s);
    SkipOneSpace(d);
    NegativeOfStripped(s, d);
  }

  lemma SkipOneSpace(d: string)
    requires |d| > 0 && IsDigit(d[0])
    ensures TrimLeft(" " + d) == d
  {
    assert (" " + d)[1..] == d;
  }

  lemma NegativeOfStripped(s: string, d: string)
    requires |s| > 0 && Strip(s) == s && s[0] == '-'
    requires TrimLeft(s[1..]) == d && |d| > 0 && AllDigits(d)
    ensures ParseInt(s) == Ok(-(DigitsValue(d) as int))
  {
    var t := Strip(s);
    assert t == s;
    assert TrimLeft(t[1..]) == d;
    assert t[0] == '-';
  }

  /** Strip leaves a string that starts and ends with a non-space alone. */
  lemma StripUnspaced(s: string)
    requires |s| > 0 && !IsSpace(s[0]) && !IsSpace(s[|s| - 1])
    ensures Strip(s) == s
  {
  }

  /** int(str(n)) == n. */
  lemma ParseIntOfNatToString(n: nat)
    ensures ParseInt(NatToString(n)) == Ok(n)
  {
    var s := NatToString(n);
    assert IsDigit(s[0]) && IsDigit(s[|s| - 1]);
    StripUnspaced(s);
  }

  /** Python's str.split(sep) for a one-character separator: empty pieces are kept. */
  function Split(s: string, sep: char): (parts: seq<string>)
    ensures |parts| >= 1
    ensures forall k :: 0 <= k < |parts| ==> sep !in parts[k]
  {
    if |s| == 0 then [""]
    else
      var rest := Split(s[1..], sep);
      if s[0] == sep then [""] + rest else [[s[0]] + rest[0]] + rest[1..]
  }

  /** Python's sep.join(parts). */
  function Join(parts: seq<string>, sep: char): string
  {
    if |parts| == 0 then "" else if |parts| == 1 then parts[0]
    else parts[0] + [sep] + Join(parts[1..], sep)
  }

  lemma {:induction false} JoinSplit(s: string, sep: char)
    ensures Join(Split(s, sep), sep) == s
  {
    if |s| > 0 {
      JoinSplit(s[1..], sep);
      var rest := Split(s[1..], sep);
      if s[0] != sep {
        if |rest| > 1 {
          assert [[s[0]] + rest[0]] + rest[1..] == [[s[0]] + rest[0]] + rest[1..];
          assert ([[s[0]] + rest[0]] + rest[1..])[1..] == rest[1..];
        }
      } else {
        assert ([""] + rest)[1..] == rest;
      }
    }
  }

  lemma {:induction false} SplitJoin(parts: seq<string>, sep: char)
    requires |parts| >= 1
    requires forall k :: 0 <= k < |parts| ==> sep !in parts[k]
    ensures Split(Join(parts, sep), sep) == parts
  {
    if |parts| == 1 {
      SplitNoSep(parts[0], sep);
    } else {
      SplitJoin(parts[1..], sep);
      SplitPrefix(parts[0], Join(parts[1..], sep), sep);
      assert parts[0] + [sep] + Join(parts[1..], sep) == parts[0] + ([sep] + Join(parts[1..], sep));
      assert [parts[0]] + parts[1..] == parts;
    }
  }

  lemma {:induction false} SplitNoSep(s: string, sep: char)
    requires sep !in s
    ensures Split(s, sep) == [s]
  {
    if |s| > 0 {
      assert sep !in s[1..] by { assert forall i :: 0 <= i < |s[1..]| ==> s[1..][i] == s[i + 1]; }
      SplitNoSep(s[1..], sep);
      assert [s[0]] + s[1..] == s;
    }
  }

  /** Splitting a separator-free word followed by a separator and the rest. */
  lemma {:induction false} SplitPrefix(w: string, rest: string, sep: char)
    requires sep !in w
    ensures Split(w + ([sep] + rest), sep) == [w] + Split(rest, sep)
  {
    if |w| == 0 {
      assert w + ([sep] + rest) == [sep] + rest;
      assert ([sep] + rest)[1..] == rest;
    } else {
      assert sep !in w[1..] by { assert forall i :: 0 <= i < |w[1..]| ==> w[1..][i] == w[i + 1]; }
      SplitPrefix(w[1..], rest, sep);
      var s := w + ([sep] + rest);
      assert s[0] == w[0] && s[1..] == w[1..] + ([sep] + rest);
      assert [w[0]] + w[1..] == w;
    }
  }

  // ---------------------------------------------------------------------
  // Version encoding
  // ---------------------------------------------------------------------

  /** The integer weight of a list of (up to four used) version components. */
  function Weighted(cs: seq<int>): int
    requires |cs| >= 2
  {
    cs[0] * 1000 + cs[1] * 100
      + (if |cs| > 2 then cs[2] * 10 else 0)
      + (if |cs| > 3 then cs[3] else 0)
  }

  /** version_to_integer: split at '.', then int() of the pieces it looks at. */
  function VersionToInteger(version: string): (r: Result<int>)
  {
    EncodeResults(ParseAll(Split(version, '.')))
  }

  /** A version encodes only when it has two pieces and the first two (at least) are ints. */
  lemma VersionToIntegerNeedsTwoInts(version: string)
    ensures VersionToInteger(version).Ok? ==>
              2 <= |Split(version, '.')| && ParseInt(Split(version, '.')[0]).Ok? && ParseInt(Split(version, '.')[1]).Ok?
    ensures |Split(version, '.')| == 1 && ParseInt(version).Ok? ==> VersionToInteger(version) == Err("IndexError")
  {
    JoinSplit(version, '.');
    ParseAllPointwise(Split(version, '.'));
  }

  /**
   * int() of every piece, as a value rather than a raised error; the
   * callers decide which of the results they look at, in which order.
   */
  function ParseAll(parts: seq<string>): (rs: seq<Result<int>>)
    ensures |rs| == |parts|
  {
    if parts == [] then [] else [ParseInt(parts[0])] + ParseAll(parts[1..])
  }

  /** The k-th result is int() of the k-th piece. */
  lemma {:induction false} ParseAllPointwise(parts: seq<string>)
    ensures forall k :: 0 <= k < |parts| ==> ParseAll(parts)[k] == ParseInt(parts[k])
  {
    if parts != [] {
      ParseAllPointwise(parts[1..]);
      assert forall k :: 1 <= k < |parts| ==> parts[1..][k - 1] == parts[k];
    }
  }

  /**
   * The arithmetic of version_to_integer on the parsed pieces, in the
   * source's order: a bad first component raises ValueError before a
   * missing second one raises IndexError; pieces after the fourth are
   * never looked at.
   */
  function EncodeResults(rs: seq<Result<int>>): (r: Result<int>)
  {
    if |rs| == 0 then Err("IndexError")
    else match rs[0]
    case Err(e) => Err(e)
    case Ok(a) =>
      if |rs| < 2 then Err("IndexError")
      else match rs[1]
      case Err(e) => Err(e)
      case Ok(b) =>
        var c := if |rs| > 2 then rs[2] else Ok(0);
        if c.Err? then Err(c.error)
        else
          var d := if |rs| > 3 then rs[3] else Ok(0);
          if d.Err? then Err(d.error)
          else Ok(a * 1000 + b * 100 + c.value * 10 + d.value)
  }

  /**
   * The encoding succeeds exactly when there are two results and the first
   * four are all values; a failed first parse wins over a missing second one.
   */
  lemma EncodeResultsOutcome(rs: seq<Result<int>>)
    ensures EncodeResults(rs).Ok? <==>
      2 <= |rs| && rs[0].Ok? && rs[1].Ok? && (|rs| > 2 ==> rs[2].Ok?) && (|rs| > 3 ==> rs[3].Ok?)
    ensures |rs| > 0 && rs[0].Err? ==> EncodeResults(rs) == rs[0]
    ensures |rs| == 0 || (|rs| == 1 && rs[0].Ok?) ==> EncodeResults(rs) == Err("IndexError")
  {
  }

  /** The parse results of numbers that int() accepts. */
  function Oks(cs: seq<nat>): (rs: seq<Result<int>>)
    ensures |rs| == |cs|
    ensures forall k :: 0 <= k < |cs| ==> rs[k] == Ok(cs[k] as int)
  {
    if cs == [] then [] else [Ok(cs[0] as int)] + Oks(cs[1..])
  }

  /** Python's str() of each component. */
  function NatStrings(cs: seq<nat>): (strs: seq<string>)
    ensures |strs| == |cs|
    ensures forall k :: 0 <= k < |cs| ==> strs[k] == NatToString(cs[k])
  {
    if cs == [] then [] else [NatToString(cs[0])] + NatStrings(cs[1..])
  }

  /** The dotted text of a list of numeric components. */
  function VersionOf(cs: seq<nat>): string
  {
    Join(NatStrings(cs), '.')
  }

  /** The components integer_to_version prints for n (a fourth only when n%10 is not 0). */
  function VersionComponents(n: int): (cs: seq<nat>)
    ensures 3 <= |cs| <= 4
  {
    if n < 0 then [0, 0, 0]
    else if n % 10 > 0 then [n / 1000, n % 1000 / 100, n % 100 / 10, n % 10]
    else [n / 1000, n % 1000 / 100, n % 100 / 10]
  }

  /** The string integer_to_version returns; a negative n passes none of its guards. */
  function VersionText(n: int): string
  {
    VersionOf(VersionComponents(n))
  }

  lemma MulStep(m: int, x: int, y: int)
    requires m > 0 && x >= y + 1
    ensures m * x >= m * y + m
    decreases x - y
  {
    if x > y + 1 {
      MulStep(m, x - 1, y);
      assert m * x == m * (x - 1) + m;
    } else {
      assert m * x == m * y + m;
    }
  }

  /** Euclidean division is unique: the quotient of k by m is the q with q*m <= k < q*m + m. */
  lemma DivModUnique(k: int, m: int, q: int)
    requires m > 0 && q * m <= k < q * m + m
    ensures k / m == q && k % m == k - q * m
  {
    var q2, r2 := k / m, k % m;
    assert k == m * q2 + r2 && 0 <= r2 < m;
    if q2 > q { MulStep(m, q2, q); }
    if q2 < q { MulStep(m, q, q2); }
  }

  /** The weights recombine the div/mod components of any n >= 0. */
  lemma WeightedOfComponents(n: int)
    ensures n >= 0 ==> Weighted(VersionComponents(n)) == n
  {
    if n >= 0 {
      var a, r := n / 1000, n % 1000;
      var b, s := r / 100, r % 100;
      var c := s / 10;
      DivModUnique(n, 100, a * 10 + b);
      DivModUnique(n, 10, a * 100 + b * 10 + c);
    }
  }

  /** Taking the remainder by 1000, then 100, then 10 keeps the lower digits. */
  lemma ModChain(n: int)
    ensures n >= 0 ==> n % 1000 % 100 == n % 100 && n % 100 % 10 == n % 10
  {
    if n >= 0 {
      WeightedOfComponents(n);
      DivModUnique(n % 1000, 100, n % 1000 / 100);
      DivModUnique(n, 100, n / 1000 * 10 + n % 1000 / 100);
      DivModUnique(n, 10, n / 1000 * 100 + n % 1000 / 100 * 10 + n % 100 / 10);
    }
  }

  /** Single-digit minor and patch components are recovered by div/mod. */
  lemma ComponentsOfWeighted(a: nat, b: nat, c: nat, d: nat)
    requires b < 10 && c < 10 && d < 10
    ensures var n := a * 1000 + b * 100 + c * 10 + d;
      n / 1000 == a && n % 1000 / 100 == b && n % 100 / 10 == c && n % 10 == d
  {
    var n := a * 1000 + b * 100 + c * 10 + d;
    DivModUnique(n, 1000, a);
    DivModUnique(n, 100, a * 10 + b);
    DivModUnique(n, 10, a * 100 + b * 10 + c);
    DivModUnique(n % 1000, 100, b);
    DivModUnique(n % 100, 10, c);
  }

  /** The components printed for a weighted sum of digits are those digits, a zero build dropped. */
  lemma DecodeComponents(a: nat, b: nat, c: nat, d: nat)
    requires b < 10 && c < 10 && d < 10
    ensures VersionComponents(a * 1000 + b * 100 + c * 10 + d) == if d == 0 then [a, b, c] else [a, b, c, d]
  {
    ComponentsOfWeighted(a, b, c, d);
  }

  /** integer_to_version of a weighted sum of digits prints those digits. */
  lemma DecodeText(a: nat, b: nat, c: nat, d: nat)
    requires b < 10 && c < 10 && d < 10
    ensures VersionText(a * 1000 + b * 100 + c * 10 + d) == VersionOf(if d == 0 then [a, b, c] else [a, b, c, d])
  {
    DecodeComponents(a, b, c, d);
  }

  /** DecodeText for any n that is the weighted sum of the digits. */
  lemma DecodeTextAt(n: int, a: nat, b: nat, c: nat, d: nat)
    requires b < 10 && c < 10 && d < 10 && n == a * 1000 + b * 100 + c * 10 + d
    ensures VersionText(n) == VersionOf(if d == 0 then [a, b, c] else [a, b, c, d])
  {
    DecodeText(a, b, c, d);
  }

  /** Appending ".w" to a joined list joins one more component. */
  lemma JoinAppend(parts: seq<string>, w: string, sep: char)
    requires |parts| >= 1
    ensures Join(parts, sep) + [sep] + w == Join(parts + [w], sep)
    decreases |parts|
  {
    if |parts| > 1 {
      JoinAppend(parts[1..], w, sep);
      assert (parts + [w])[1..] == parts[1..] + [w];
    } else {
      assert (parts + [w])[1..] == [w];
    }
  }

  /** integer_to_version, step by step as the source updates parts and intVer. */
  method IntegerToVersion(n: int) returns (version: string)
    ensures version == VersionText(n)
  {
    var parts: seq<nat> := [0, 0, 0];
    var intVer := n;
    if intVer >= 1000 {
      parts := parts[0 := intVer / 1000];
      intVer := intVer % 1000;
    }
    assert parts[0] == Taken(n, 1000) && intVer == After(n, 1000);
    if intVer >= 100 {
      parts := parts[1 := intVer / 100];
      intVer := intVer % 100;
    }
    ghost var r1 := After(n, 1000);
    assert parts[..2] == [Taken(n, 1000), Taken(r1, 100)] && intVer == After(r1, 100);
    if intVer >= 10 {
      parts := parts[2 := intVer / 10];
      intVer := intVer % 10;
    }
    version := Join([NatToString(parts[0]), NatToString(parts[1]), NatToString(parts[2])], '.');
    JoinThree(parts);
    AssembledText(n, parts, intVer);
    if intVer > 0 {
      version := version + "." + NatToString(intVer);
    }
  }

  /** What is left of v after a guarded step by w (v itself when it is below w). */
  function After(v: int, w: int): int
    requires w > 0
  {
    if v >= w then v % w else v
  }

  /** The component a guarded step by w records (0 when v is below w). */
  function Taken(v: int, w: int): int
    requires w > 0
  {
    if v >= w then v / w else 0
  }

  /**
   * The three guarded steps of integer_to_version compute the plain
   * div/mod digits for n >= 0, and leave a negative n untouched.
   */
  lemma GuardedSteps(n: int)
    ensures var r1 := After(n, 1000); var r2 := After(r1, 100);
      n >= 0 ==> (Taken(n, 1000) == n / 1000 && Taken(r1, 100) == n % 1000 / 100
                  && Taken(r2, 10) == n % 100 / 10 && After(r2, 10) == n % 10)
    ensures var r1 := After(n, 1000); var r2 := After(r1, 100);
      n < 0 ==> (Taken(n, 1000) == 0 && Taken(r1, 100) == 0 && Taken(r2, 10) == 0 && After(r2, 10) == n)
  {
    if n >= 0 {
      ModChain(n);
      if n < 1000 { DivModUnique(n, 1000, 0); }
      var r1 := n % 1000;
      if r1 < 100 { DivModUnique(r1, 100, 0); }
      var r2 := n % 100;
      if r2 < 10 { DivModUnique(r2, 10, 0); }
    }
  }

  /** The three leading components, and the build when it is positive, make up VersionText. */
  lemma AssembledText(n: int, parts: seq<nat>, build: int)
    requires var r1 := After(n, 1000); var r2 := After(r1, 100);
      |parts| == 3 && parts[0] == Taken(n, 1000) && parts[1] == Taken(r1, 100)
      && parts[2] == Taken(r2, 10) && build == After(r2, 10)
    ensures build > 0 ==> VersionOf(parts) + "." + NatToString(build) == VersionText(n)
    ensures build <= 0 ==> VersionOf(parts) == VersionText(n)
  {
    GuardedSteps(n);
    if build > 0 {
      JoinOneMore(parts, build);
      assert parts + [build] == VersionComponents(n);
    } else {
      assert parts == VersionComponents(n);
    }
  }

  lemma JoinThree(cs: seq<nat>)
    requires |cs| == 3
    ensures Join([NatToString(cs[0]), NatToString(cs[1]), NatToString(cs[2])], '.') == VersionOf(cs)
  {
    assert NatStrings(cs) == [NatToString(cs[0]), NatToString(cs[1]), NatToString(cs[2])];
  }

  lemma JoinOneMore(cs: seq<nat>, d: nat)
    requires |cs| >= 1
    ensures VersionOf(cs) + "." + NatToString(d) == VersionOf(cs + [d])
  {
    JoinAppend(NatStrings(cs), NatToString(d), '.');
    assert NatStrings(cs) + [NatToString(d)] == NatStrings(cs + [d]);
  }

  /** Splitting the dotted text of components gives back their strings. */
  lemma SplitVersionOf(cs: seq<nat>)
    requires |cs| >= 1
    ensures Split(VersionOf(cs), '.') == NatStrings(cs)
  {
    SplitJoin(NatStrings(cs), '.');
  }

  /** VersionText has three or four components, and encodes back to n for n >= 0. */
  lemma VersionTextShape(n: int)
    ensures 3 <= |Split(VersionText(n), '.')| <= 4
    ensures n >= 0 ==> VersionToInteger(VersionText(n)) == Ok(n)
  {
    SplitVersionOf(VersionComponents(n));
    if n >= 0 {
      VersionToIntegerOfComponents(VersionComponents(n));
      WeightedOfComponents(n);
    }
  }

  /** int() accepts the str() of every component and gives it back. */
  lemma {:induction false} ParseAllNatStrings(cs: seq<nat>)
    ensures ParseAll(NatStrings(cs)) == Oks(cs)
  {
    if cs != [] {
      ParseAllNatStrings(cs[1..]);
      ParseIntOfNatToString(cs[0]);
      assert NatStrings(cs)[1..] == NatStrings(cs[1..]);
    }
  }

  /** Two to four successful parses encode to their weighted sum. */
  lemma EncodeOks(cs: seq<nat>)
    requires 2 <= |cs| <= 4
    ensures EncodeResults(Oks(cs)) == Ok(Weighted(cs))
  {
  }

  /** version_to_integer of "a.b[.c[.d]]" is the weighted sum, a missing part counting 0. */
  lemma VersionToIntegerOfComponents(cs: seq<nat>)
    requires 2 <= |cs| <= 4
    ensures VersionToInteger(VersionOf(cs)) == Ok(Weighted(cs))
  {
    SplitVersionOf(cs);
    ParseAllNatStrings(cs);
    EncodeOks(cs);
  }

  /** Fewer than two components raise IndexError once the first one parses. */
  lemma VersionToIntegerOneComponent(a: nat)
    ensures VersionToInteger(NatToString(a)) == Err("IndexError")
  {
    SplitNoSep(NatToString(a), '.');
    ParseAllNatStrings([a]);
    assert NatStrings([a]) == [NatToString(a)];
  }

  /** Round trip: a.b.c with b and c single digits comes back unchanged. */
  lemma RoundTrip3(a: nat, b: nat, c: nat)
    requires b < 10 && c < 10
    ensures VersionToInteger(VersionOf([a, b, c])) == Ok(a * 1000 + b * 100 + c * 10)
    ensures VersionText(a * 1000 + b * 100 + c * 10) == VersionOf([a, b, c])
  {
    Encode3(a, b, c);
    DecodeText(a, b, c, 0);
  }

  lemma Encode3(a: nat, b: nat, c: nat)
    ensures VersionToInteger(VersionOf([a, b, c])) == Ok(a * 1000 + b * 100 + c * 10)
  {
    VersionToIntegerOfComponents([a, b, c]);
  }

  /** Round trip with a non-zero build component: a.b.c.d comes back unchanged. */
  lemma RoundTrip4(a: nat, b: nat, c: nat, d: nat)
    requires b < 10 && c < 10 && 0 < d < 10
    ensures VersionToInteger(VersionOf([a, b, c, d])) == Ok(a * 1000 + b * 100 + c * 10 + d)
    ensures VersionText(a * 1000 + b * 100 + c * 10 + d) == VersionOf([a, b, c, d])
  {
    Encode4(a, b, c, d);
    DecodeText(a, b, c, d);
  }

  lemma Encode4(a: nat, b: nat, c: nat, d: nat)
    ensures VersionToInteger(VersionOf([a, b, c, d])) == Ok(a * 1000 + b * 100 + c * 10 + d)
  {
    VersionToIntegerOfComponents([a, b, c, d]);
  }

  /** A two-component version comes back with an explicit ".0" patch component ("1.0" gives "1.0.0"). */
  lemma RoundTrip2(a: nat, b: nat)
    requires b < 10
    ensures VersionToInteger(VersionOf([a, b])) == Ok(a * 1000 + b * 100)
    ensures VersionText(a * 1000 + b * 100) == VersionOf([a, b, 0])
  {
    VersionToIntegerOfComponents([a, b]);
    RoundTrip3(a, b, 0);
  }

  /** Every string of the list is accepted by int(). */
  predicate AllInts(parts: seq<string>)
  {
    forall r :: r in ParseAll(parts) ==> r.Ok?
  }

  lemma AllIntsNatStrings(cs: seq<nat>)
    ensures AllInts(NatStrings(cs))
  {
    ParseAllNatStrings(cs);
  }

  /**
   * increment_version: every component must be an int (the list
   * comprehension raises first), then encode, add 10, decode.
   */
  function IncrementVersion(version: string): (r: Result<string>)
  {
    if !AllInts(Split(version, '.')) then Err("ValueError")
    else match VersionToInteger(version)
      case Err(e) => Err(e)
      case Ok(n) => Ok(VersionText(n + 10))
  }

  /**
   * increment_version fails exactly when a component is not an int
   * (ValueError from the list comprehension) or version_to_integer fails.
   */
  lemma IncrementVersionFails(version: string)
    ensures IncrementVersion(version).Ok? <==> AllInts(Split(version, '.')) && VersionToInteger(version).Ok?
    ensures !AllInts(Split(version, '.')) ==> IncrementVersion(version) == Err("ValueError")
    ensures AllInts(Split(version, '.')) && VersionToInteger(version).Err? ==>
      IncrementVersion(version) == Err(VersionToInteger(version).error)
  {
  }

  /**
   * An incremented version has three or four components and encodes to
   * ten more than the original (whenever that sum is not negative).
   */
  lemma IncrementAddsTen(version: string, n: int)
    requires IncrementVersion(version).Ok? && VersionToInteger(version) == Ok(n)
    ensures IncrementVersion(version) == Ok(VersionText(n + 10))
    ensures 3 <= |Split(VersionText(n + 10), '.')| <= 4
    ensures n + 10 >= 0 ==> VersionToInteger(VersionText(n + 10)) == Ok(n + 10)
  {
    IncrementVersionFails(version);
    IncrementOfEncoded(version, n, n + 10);
    VersionTextShape(n + 10);
  }

  /** Every piece of the dotted text of numeric components is an int. */
  lemma AllIntsVersionOf(cs: seq<nat>)
    requires |cs| >= 1
    ensures AllInts(Split(VersionOf(cs), '.'))
  {
    SplitVersionOf(cs);
    AllIntsNatStrings(cs);
  }

  /** A well-formed a.b.c is incremented by encoding, adding 10 and decoding. */
  lemma IncrementVersionOf(a: nat, b: nat, c: nat)
    requires b < 10 && c < 10
    ensures IncrementVersion(VersionOf([a, b, c])) == Ok(VersionText(a * 1000 + b * 100 + c * 10 + 10))
  {
    var v := VersionOf([a, b, c]);
    var n := a * 1000 + b * 100 + c * 10;
    AllIntsVersionOf([a, b, c]);
    Encode3(a, b, c);
    IncrementOfEncoded(v, n, a * 1000 + b * 100 + c * 10 + 10);
  }

  /** A version whose pieces are all ints and that encodes to n is incremented to the text of n + 10. */
  lemma IncrementOfEncoded(version: string, n: int, m: int)
    requires AllInts(Split(version, '.')) && VersionToInteger(version) == Ok(n) && m == n + 10
    ensures IncrementVersion(version) == Ok(VersionText(m))
  {
  }

  /** The doctest cases of increment_version, generalised to any digits: the carry ripples up. */
  /** Incrementing bumps the last component when it is below 9. */
  lemma IncrementNoCarry(a: nat, b: nat, c: nat)
    requires b < 10 && c < 9
    ensures IncrementVersion(VersionOf([a, b, c])) == Ok(VersionOf([a, b, c + 1]))
  {
    IncrementVersionOf(a, b, c);
    PatchBumpText(a, b, c);
  }

  /** A last component of 9 carries into the middle one. */
  lemma IncrementCarryMinor(a: nat, b: nat)
    requires b < 9
    ensures IncrementVersion(VersionOf([a, b, 9])) == Ok(VersionOf([a, b + 1, 0]))
  {
    IncrementVersionOf(a, b, 9);
    MinorBumpText(a, b);
  }

  /** "x.9.9" carries all the way into the major component. */
  lemma IncrementCarryMajor(a: nat)
    ensures IncrementVersion(VersionOf([a, 9, 9])) == Ok(VersionOf([a + 1, 0, 0]))
  {
    IncrementVersionOf(a, 9, 9);
    MajorBumpText(a);
  }

  lemma PatchBumpText(a: nat, b: nat, c: nat)
    requires b < 10 && c < 9
    ensures VersionText(a * 1000 + b * 100 + c * 10 + 10) == VersionOf([a, b, c + 1])
  {
    DecodeTextAt(a * 1000 + b * 100 + c * 10 + 10, a, b, c + 1, 0);
  }

  lemma MinorBumpText(a: nat, b: nat)
    requires b < 9
    ensures VersionText(a * 1000 + b * 100 + 9 * 10 + 10) == VersionOf([a, b + 1, 0])
  {
    DecodeTextAt(a * 1000 + b * 100 + 9 * 10 + 10, a, b + 1, 0, 0);
  }

  lemma MajorBumpText(a: nat)
    ensures VersionText(a * 1000 + 9 * 100 + 9 * 10 + 10) == VersionOf([a + 1, 0, 0])
  {
    DecodeTextAt(a * 1000 + 9 * 100 + 9 * 10 + 10, a + 1, 0, 0, 0);
  }

  lemma VersionLiteral103()
    ensures VersionOf([1, 0, 3]) == "1.0.3"
  {
  }

  lemma VersionLiteral104()
    ensures VersionOf([1, 0, 4]) == "1.0.4"
  {
  }

  lemma VersionLiteral109()
    ensures VersionOf([1, 0, 9]) == "1.0.9"
  {
  }

  lemma VersionLiteral110()
    ensures VersionOf([1, 1, 0]) == "1.1.0"
  {
  }

  lemma VersionLiteral119()
    ensures VersionOf([1, 1, 9]) == "1.1.9"
  {
  }

  lemma VersionLiteral120()
    ensures VersionOf([1, 2, 0]) == "1.2.0"
  {
  }

  lemma VersionLiteral131()
    ensures VersionOf([1, 3, 1]) == "1.3.1"
  {
  }

  lemma VersionLiteral132()
    ensures VersionOf([1, 3, 2]) == "1.3.2"
  {
  }

  /** The carry into the middle component, stated on the texts. */
  lemma CarryMinorText(v: string, w: string, a: nat, b: nat)
    requires b < 9 && v == VersionOf([a, b, 9]) && w == VersionOf([a, b + 1, 0])
    ensures IncrementVersion(v) == Ok(w)
  {
    IncrementCarryMinor(a, b);
  }

  /** The no-carry increment, stated on the texts. */
  lemma NoCarryText(v: string, w: string, a: nat, b: nat, c: nat)
    requires b < 10 && c < 9 && v == VersionOf([a, b, c]) && w == VersionOf([a, b, c + 1])
    ensures IncrementVersion(v) == Ok(w)
  {
    IncrementNoCarry(a, b, c);
  }

  /** The doctest increment_version("1.0.3") == "1.0.4" (stated on a variable so that
      the verifier does not evaluate the literal). */
  lemma IncrementDoctest103(v: string)
    requires v == "1.0.3"
    ensures IncrementVersion(v) == Ok("1.0.4")
  {
    VersionLiteral103();
    VersionLiteral104();
    NoCarryText(v, "1.0.4", 1, 0, 3);
  }

  /** The doctest increment_version("1.0.9") == "1.1.0". */
  lemma IncrementDoctest109(v: string)
    requires v == "1.0.9"
    ensures IncrementVersion(v) == Ok("1.1.0")
  {
    VersionLiteral109();
    VersionLiteral110();
    CarryMinorText(v, "1.1.0", 1, 0);
  }

  /** The doctest increment_version("1.1.9") == "1.2.0". */
  lemma IncrementDoctest119(v: string)
    requires v == "1.1.9"
    ensures IncrementVersion(v) == Ok("1.2.0")
  {
    VersionLiteral119();
    VersionLiteral120();
    CarryMinorText(v, "1.2.0", 1, 1);
  }

  /** The doctest increment_version("1.3.1") == "1.3.2". */
  lemma IncrementDoctest131(v: string)
    requires v == "1.3.1"
    ensures IncrementVersion(v) == Ok("1.3.2")
  {
    VersionLiteral131();
    VersionLiteral132();
    NoCarryText(v, "1.3.2", 1, 3, 1);
  }

  /** is_version_increased: the new version is evaluated (and may raise) first. */
  function IsVersionIncreased(oldVersion: string, newVersion: string): (r: Result<bool>)
    ensures r.Ok? <==> VersionToInteger(newVersion).Ok? && VersionToInteger(oldVersion).Ok?
    ensures r.Ok? ==> (r.value <==> VersionToInteger(oldVersion).value < VersionToInteger(newVersion).value)
    ensures VersionToInteger(newVersion).Err? ==> r == Err(VersionToInteger(newVersion).error)
  {
    match VersionToInteger(newVersion)
    case Err(e) => Err(e)
    case Ok(nv) =>
      match VersionToInteger(oldVersion)
      case Err(e) => Err(e)
      case Ok(ov) => Ok(nv > ov)
  }

  /** A version is never an increase over itself. */
  lemma NotIncreasedOverItself(v: string)
    ensures IsVersionIncreased(v, v) != Ok(true)
  {
  }

  /** Whatever increment_version recommends is an increase over its input. */
  lemma IncrementIsIncrease(v: string)
    requires IncrementVersion(v).Ok?
    ensures IsVersionIncreased(v, IncrementVersion(v).value) == Ok(true)
  {
    IncrementVersionFails(v);
    var n := VersionToInteger(v).value;
    IncrementAddsTen(v, n);
    TextOfIncrement(n);
    IncreasedWhenLarger(v, VersionText(n + 10), n);
  }

  /** Dotted-version order on equally long component lists: the first differing component decides. */
  predicate LexLess(x: seq<nat>, y: seq<nat>)
    requires |x| == |y|
  {
    x != [] && (x[0] < y[0] || (x[0] == y[0] && LexLess(x[1..], y[1..])))
  }

  /** The components with the missing patch and build counted as 0. */
  function Padded(cs: seq<nat>): (r: seq<nat>)
    requires |cs| <= 4
    ensures |r| == 4 && r[..|cs|] == cs && forall i :: |cs| <= i < 4 ==> r[i] == 0
  {
    cs + seq(4 - |cs|, _ => 0)
  }

  /** With single-digit minor, patch and build, the weighted sum orders versions lexicographically. */
  lemma WeightedOrder(x: seq<nat>, y: seq<nat>)
    requires |x| == 4 && |y| == 4
    requires forall i :: 1 <= i < 4 ==> x[i] < 10 && y[i] < 10
    ensures Weighted(x) < Weighted(y) <==> LexLess(x, y)
  {
    var x1, y1 := x[1..], y[1..];
    var x2, y2 := x1[1..], y1[1..];
    var x3, y3 := x2[1..], y2[1..];
    assert x3[1..] == [] && y3[1..] == [];
    assert LexLess(x3, y3) <==> x[3] < y[3];
    assert LexLess(x2, y2) <==> x[2] < y[2] || (x[2] == y[2] && x[3] < y[3]);
    assert LexLess(x1, y1) <==> x[1] < y[1] || (x[1] == y[1] && LexLess(x2, y2));
  }

  /**
   * is_version_increased agrees with dotted-version order: for versions of
   * two to four components whose minor, patch and build are single digits,
   * the new one is an increase iff its components, with missing ones
   * counted as 0, are lexicographically greater.
   */
  lemma IncreasedIffLater(v: seq<nat>, w: seq<nat>)
    requires 2 <= |v| <= 4 && 2 <= |w| <= 4
    requires forall i :: 1 <= i < |v| ==> v[i] < 10
    requires forall i :: 1 <= i < |w| ==> w[i] < 10
    ensures IsVersionIncreased(VersionOf(v), VersionOf(w)) == Ok(LexLess(Padded(v), Padded(w)))
  {
    VersionToIntegerOfComponents(v);
    VersionToIntegerOfComponents(w);
    var pv, pw := Padded(v), Padded(w);
    assert Weighted(pv) == Weighted(v) by {
      assert pv[0] == v[0] && pv[1] == v[1];
    }
    assert Weighted(pw) == Weighted(w) by {
      assert pw[0] == w[0] && pw[1] == w[1];
    }
    assert forall i :: 1 <= i < 4 ==> pv[i] < 10 && pw[i] < 10 by {
      forall i | 1 <= i < 4
        ensures pv[i] < 10 && pw[i] < 10
      {
        if i < |v| { assert pv[i] == pv[..|v|][i]; }
        if i < |w| { assert pw[i] == pw[..|w|][i]; }
      }
    }
    WeightedOrder(pv, pw);
  }

  /** The text printed for n + 10 encodes to n + 10, or to 0 when that is negative. */
  lemma TextOfIncrement(n: int)
    ensures VersionToInteger(VersionText(n + 10)) == Ok(if n + 10 >= 0 then n + 10 else 0)
  {
    VersionTextShape(n + 10);
    if n + 10 < 0 {
      VersionTextShape(0);
      assert VersionComponents(n + 10) == VersionComponents(0);
    }
  }

  lemma IncreasedWhenLarger(oldVersion: string, newVersion: string, n: int)
    requires VersionToInteger(oldVersion) == Ok(n)
    requires VersionToInteger(newVersion) == Ok(if n + 10 >= 0 then n + 10 else 0)
    ensures IsVersionIncreased(oldVersion, newVersion) == Ok(true)
  {
  }

  // ---------------------------------------------------------------------
  // max_version
  // ---------------------------------------------------------------------

  function LeadingDigits(s: string): (k: nat)
    ensures k <= |s| && AllDigits(s[..k])
    ensures k < |s| ==> !IsDigit(s[k])
  {
    if |s| > 0 && IsDigit(s[0]) then
      var k := 1 + LeadingDigits(s[1..]);
      assert forall i :: 0 < i < k ==> s[..k][i] == s[1..][..k - 1][i - 1];
      k
    else 0
  }

  /** re.match of ^\d+\.\d+(\.\d+)?(\.\d+)? succeeds: the optional groups never decide it. */
  predicate MatchesVersionPrefix(s: string)
  {
    var k := LeadingDigits(s);
    k >= 1 && k + 1 < |s| && s[k] == '.' && IsDigit(s[k + 1])
  }

  /** s[..j] is digits(1..i) '.' digits, the shortest text the regular expression accepts. */
  predicate PrefixForm(s: string, i: int, j: int)
  {
    1 <= i && i + 1 < j <= |s| && AllDigits(s[..i]) && s[i] == '.' && AllDigits(s[i + 1..j])
  }

  /** The predicate is the regular expression's prefix language, in both directions. */
  lemma MatchesVersionPrefixMeaning(s: string)
    ensures MatchesVersionPrefix(s) <==> exists i, j :: PrefixForm(s, i, j)
  {
    var k := LeadingDigits(s);
    if MatchesVersionPrefix(s) {
      assert AllDigits(s[k + 1..k + 2]);
      assert PrefixForm(s, k, k + 2);
    }
    if exists i, j :: PrefixForm(s, i, j) {
      var i, j :| PrefixForm(s, i, j);
      assert forall t :: 0 <= t < i ==> IsDigit(s[t]) by { assert forall t :: 0 <= t < i ==> s[..i][t] == s[t]; }
      assert IsDigit(s[i + 1]) by { assert s[i + 1..j][0] == s[i + 1]; }
      if k < i {
        assert !IsDigit(s[k]);
      } else if k > i {
        assert s[..k][i] == s[i];
      }
    }
  }

  /** strs[k] is selected and its code is a maximum among the selected, and the earliest such. */
  predicate IsEarliestMax(strs: seq<string>, selected: string -> bool, code: string -> Result<int>, k: int)
  {
    0 <= k < |strs| && selected(strs[k]) && code(strs[k]).Ok?
    && (forall i :: 0 <= i < |strs| && selected(strs[i]) ==> code(strs[i]).Ok? && code(strs[i]).value <= code(strs[k]).value)
    && (forall i :: 0 <= i < k && selected(strs[i]) ==> code(strs[i]).value < code(strs[k]).value)
  }

  /**
   * The loop of max_version for a given filter and encoding: the first
   * selected string is kept and replaced only by a strictly greater one;
   * encoding a selected string that fails raises.
   */
  method MaxBy(strs: seq<string>, selected: string -> bool, code: string -> Result<int>)
    returns (r: Result<Option<string>>)
    ensures r.Err? <==> exists i :: 0 <= i < |strs| && selected(strs[i]) && code(strs[i]).Err?
    ensures r == Ok(None) <==> forall i :: 0 <= i < |strs| ==> !selected(strs[i])
    ensures r.Ok? && r.value.Some? ==> exists k :: IsEarliestMax(strs, selected, code, k) && strs[k] == r.value.value
  {
    var versionAsStr: Option<string> := None;
    var versionAsInt := 0;
    ghost var at := 0;
    var i := 0;
    while i < |strs|
      invariant 0 <= i <= |strs|
      invariant forall j :: 0 <= j < i && selected(strs[j]) ==> code(strs[j]).Ok?
      invariant versionAsStr.None? <==> forall j :: 0 <= j < i ==> !selected(strs[j])
      invariant versionAsStr.Some? ==>
        (IsEarliestMax(strs[..i], selected, code, at) && strs[at] == versionAsStr.value && versionAsInt == code(strs[at]).value)
    {
      var s := strs[i];
      if selected(s) {
        var e := code(s);
        if e.Err? {
          return Err(e.error);
        }
        if versionAsStr.None? {
          versionAsStr, versionAsInt, at := Some(s), e.value, i;
        } else if e.value > versionAsInt {
          versionAsStr, versionAsInt, at := Some(s), e.value, i;
        }
      }
      i := i + 1;
    }
    assert strs[..i] == strs;
    r := Ok(versionAsStr);
  }

  /** max_version: the regular-expression filter and version_to_integer as the encoding. */
  method MaxVersion(strs: seq<string>) returns (r: Result<Option<string>>)
    ensures r.Err? <==> exists i :: 0 <= i < |strs| && MatchesVersionPrefix(strs[i]) && VersionToInteger(strs[i]).Err?
    ensures r == Ok(None) <==> forall i :: 0 <= i < |strs| ==> !MatchesVersionPrefix(strs[i])
    ensures r.Ok? && r.value.Some? ==>
      exists k :: IsEarliestMax(strs, MatchesVersionPrefix, VersionToInteger, k) && strs[k] == r.value.value
  {
    r := MaxBy(strs, MatchesVersionPrefix, VersionToInteger);
  }

  // ---------------------------------------------------------------------
  // String helpers
  // ---------------------------------------------------------------------

  /** Appending s to index copies of s gives index + 1 copies. */
  lemma RepeatOnce(d: string, s: string, index: nat)
    requires |d| == |s| * index
    requires forall i :: 0 <= i < |d| ==> d[i] == s[i % |s|]
    ensures |d + s| == |s| * (index + 1)
    ensures forall i :: 0 <= i < |d + s| ==> (d + s)[i] == s[i % |s|]
  {
    forall i | |d| <= i < |d| + |s| ensures (d + s)[i] == s[i % |s|] {
      DivModUnique(i, |s|, index);
    }
    assert |s| * (index + 1) == |s| * index + |s|;
  }

  /** duplicate(str, times): str repeated times times, "" when times <= 0. */
  method Duplicate(s: string, times: int) returns (dupStr: string)
    ensures |dupStr| == |s| * (if times > 0 then times else 0)
    ensures forall i :: 0 <= i < |dupStr| ==> dupStr[i] == s[i % |s|]
  {
    dupStr := "";
    var index := 0;
    while index < times
      invariant 0 <= index && (times > 0 ==> index <= times) && (times <= 0 ==> index == 0)
      invariant |dupStr| == |s| * index
      invariant forall i :: 0 <= i < |dupStr| ==> dupStr[i] == s[i % |s|]
    {
      RepeatOnce(dupStr, s, index);
      dupStr := dupStr + s;
      index := index + 1;
    }
  }

  /** pad_to: the original followed by filler repeated (size - len) times. */
  method PadTo(original: string, filler: string, size: int) returns (padded: string)
    ensures |original| <= |padded| && padded[..|original|] == original
    ensures |padded| == |original| + |filler| * (if size > |original| then size - |original| else 0)
    ensures forall i :: |original| <= i < |padded| ==> padded[i] == filler[(i - |original|) % |filler|]
    ensures |filler| == 1 ==> |padded| == if size > |original| then size else |original|
  {
    var missing := size - |original|;
    var tail := Duplicate(filler, missing);
    padded := original + tail;
  }

  // ---------------------------------------------------------------------
  // Project selection
  // ---------------------------------------------------------------------

  /** A (long name, short name) entry of the project table names arg. */
  predicate Names(project: (string, string), arg: string)
  {
    arg == project.0 || arg == project.1
  }

  /** projects[k] names arg and no later entry does. */
  predicate LastMatchAt(projects: seq<(string, string)>, arg: string, k: int)
  {
    0 <= k < |projects| && Names(projects[k], arg)
    && forall j :: k < j < |projects| ==> !Names(projects[j], arg)
  }

  /** match_arg: the LAST table entry naming arg, as the loop never breaks; None when none does. */
  method MatchArg(arg: string, projects: seq<(string, string)>) returns (matched: Option<(string, string)>)
    ensures matched.None? <==> forall k :: 0 <= k < |projects| ==> !Names(projects[k], arg)
    ensures matched.Some? ==> exists k :: LastMatchAt(projects, arg, k) && projects[k] == matched.value
  {
    matched := None;
    ghost var at := 0;
    var i := 0;
    while i < |projects|
      invariant 0 <= i <= |projects|
      invariant matched.None? <==> forall k :: 0 <= k < i ==> !Names(projects[k], arg)
      invariant matched.Some? ==> LastMatchAt(projects[..i], arg, at) && projects[at] == matched.value
    {
      var project := projects[i];
      if arg == project.0 || arg == project.1 {
        matched, at := Some(project), i;
      }
      i := i + 1;
    }
    assert projects[..i] == projects;
  }

  /** The three project flags: langtools (LT), annotation-file-utilities (AFU), checker-framework (CF). */
  datatype Flags = Flags(lt: bool, afu: bool, cf: bool)

  /** The flags after the dependency closure: CF needs AFU and LT, AFU needs LT. */
  function WithDependencies(f: Flags): Flags
  {
    if f.cf then Flags(true, true, true)
    else if f.afu then f.(lt := true)
    else f
  }

  predicate Closed(f: Flags) { (f.cf ==> f.afu && f.lt) && (f.afu ==> f.lt) }

  predicate Below(f: Flags, g: Flags) { (f.lt ==> g.lt) && (f.afu ==> g.afu) && (f.cf ==> g.cf) }

  /** The closure is closed, only switches flags on, and is the least closed set of flags above its input. */
  lemma WithDependenciesIsClosure(f: Flags, g: Flags)
    ensures Closed(WithDependencies(f)) && Below(f, WithDependencies(f))
    ensures WithDependencies(f).cf == f.cf
    ensures Closed(g) && Below(f, g) ==> Below(WithDependencies(f), g)
    ensures WithDependencies(WithDependencies(f)) == WithDependencies(f)
  {
  }

  /** The matched-projects dictionary, which add_project_dependencies updates in place. */
  class MatchedProjects {
    var lt: bool
    var afu: bool
    var cf: bool

    function Value(): Flags reads this { Flags(lt, afu, cf) }

    constructor (f: Flags)
      ensures Value() == f
    {
      lt, afu, cf := f.lt, f.afu, f.cf;
    }

    method AddProjectDependencies()
      modifies this
      ensures Value() == WithDependencies(old(Value()))
      ensures Closed(Value()) && Below(old(Value()), Value())
    {
      if cf {
        afu := true;
        lt := true;
      } else {
        if afu {
          lt := true;
        }
      }
    }
  }
}

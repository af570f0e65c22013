/**
 * The java.lang.String operations the string-level parts of the checker
 * framework rely on: trim, indexOf / lastIndexOf, contains, toLowerCase
 * (ASCII letters only) and split on a single separator character.
 */
module JavaStrings {

  /** String.indexOf(char): the index of the first c in s, or |s| when there is none. */
  function IndexOf(s: string, c: char): (k: nat)
    ensures k <= |s|
    ensures k < |s| ==> s[k] == c
    ensures forall j :: 0 <= j < k ==> s[j] != c
  {
    if s == [] then 0
    else if s[0] == c then 0
    else 1 + IndexOf(s[1..], c)
  }

  // ---------------------------------------------------------------------
  // trim
  // ---------------------------------------------------------------------

  function TrimStart(s: string): (t: string)
    ensures |t| <= |s| && t == s[|s| - |t|..]
    ensures t == [] || t[0] > ' '
    ensures forall i :: 0 <= i < |s| - |t| ==> s[i] <= ' '
  {
    if s != [] && s[0] <= ' ' then TrimStart(s[1..]) else s
  }

  function TrimEnd(s: string): (t: string)
    ensures |t| <= |s| && t == s[..|t|]
    ensures t == [] || t[|t| - 1] > ' '
    ensures forall i :: |t| <= i < |s| ==> s[i] <= ' '
  {
    if s != [] && s[|s| - 1] <= ' ' then TrimEnd(s[..|s| - 1]) else s
  }

  predicate IsTrimmed(s: string)
  {
    s == [] || (s[0] > ' ' && s[|s| - 1] > ' ')
  }

  /** Every character of s outside [a, b) is at most the space character. */
  predicate BlankOutside(s: string, a: nat, b: nat)
    requires a <= b <= |s|
  {
    (forall i :: 0 <= i < a ==> s[i] <= ' ') && (forall i :: b <= i < |s| ==> s[i] <= ' ')
  }

  /** t is s with only characters up to the space character removed from its two ends. */
  ghost predicate StrippedOf(s: string, t: string)
  {
    exists a: nat, b: nat :: a <= b <= |s| && t == s[a..b] && BlankOutside(s, a, b)
  }

  /** String.trim: strip leading and trailing characters up to the space character. */
  function Trim(s: string): (t: string)
    ensures |t| <= |s|
    ensures IsTrimmed(t)
    ensures StrippedOf(s, t)
  {
    var v := TrimStart(s);
    var u := TrimEnd(v);
    assert u != [] ==> u[0] == v[0];
    TrimEndsBlank(s);
    u
  }

  /** Trimming the start, then the end, removes only blank characters from s. */
  lemma TrimEndsBlank(s: string)
    ensures StrippedOf(s, TrimEnd(TrimStart(s)))
  {
    var v := TrimStart(s);
    var u := TrimEnd(v);
    var a := |s| - |v|;
    var b := a + |u|;
    assert u == s[a..b];
    forall i | b <= i < |s|
      ensures s[i] <= ' '
    {
      assert s[i] == v[i - a];
    }
    assert BlankOutside(s, a, b);
  }

  /** A string that starts and ends with visible characters is its own trim. */
  lemma TrimmedUnchanged(s: string)
    requires IsTrimmed(s)
    ensures Trim(s) == s
  {
  }

  // ---------------------------------------------------------------------
  // Substrings and case
  // ---------------------------------------------------------------------

  predicate OccursAt(s: string, p: string, i: nat)
  {
    i + |p| <= |s| && s[i..i + |p|] == p
  }

  /** String.contains */
  predicate Contains(s: string, p: string)
  {
    exists i :: 0 <= i <= |s| - |p| && OccursAt(s, p, i)
  }

  /** A prefix is contained; the empty string is contained in everything. */
  lemma PrefixContained(s: string, p: string)
    requires |p| <= |s| && s[..|p|] == p
    ensures Contains(s, p)
  {
    assert OccursAt(s, p, 0);
  }

  /** The last index at or below i where p occurs in s, or -1. */
  function LastOccurrenceFrom(s: string, p: string, i: int): (r: int)
    requires -1 <= i <= |s|
    ensures -1 <= r <= i
    ensures r >= 0 ==> OccursAt(s, p, r)
    ensures forall j: nat :: r < j <= i ==> !OccursAt(s, p, j)
    decreases i + 1
  {
    if i < 0 then -1
    else if OccursAt(s, p, i) then i
    else
      var r := LastOccurrenceFrom(s, p, i - 1);
      assert forall j: nat :: r < j <= i ==> !OccursAt(s, p, j) by {
        forall j: nat | r < j <= i
          ensures !OccursAt(s, p, j)
        {
          if j < i {
          }
        }
      }
      r
  }

  /** String.lastIndexOf(String): the greatest index where p occurs in s, or -1. */
  function LastIndexOf(s: string, p: string): (r: int)
    ensures -1 <= r <= |s|
    ensures r >= 0 ==> OccursAt(s, p, r)
    ensures forall j: nat :: r < j ==> !OccursAt(s, p, j)
  {
    LastOccurrenceFrom(s, p, |s|)
  }

  /** A string ending in p has its last occurrence of p there. */
  lemma LastIndexOfSuffix(b: string, p: string)
    requires p != []
    ensures LastIndexOf(b + p, p) == |b|
  {
    assert OccursAt(b + p, p, |b|);
  }

  /** String.lastIndexOf(char): the index of the last c in s, or -1 when there is none. */
  function LastIndexOfChar(s: string, c: char): (r: int)
    ensures -1 <= r < |s|
    ensures r >= 0 ==> s[r] == c
    ensures forall j :: r < j < |s| ==> s[j] != c
    ensures r == -1 <==> c !in s
  {
    if s == [] then -1
    else if s[|s| - 1] == c then |s| - 1
    else
      var r := LastIndexOfChar(s[..|s| - 1], c);
      assert forall j :: 0 <= j < |s| - 1 ==> s[..|s| - 1][j] == s[j];
      r
  }

  /** lastIndexOf finds nothing exactly when p does not occur. */
  lemma LastIndexOfMissing(s: string, p: string)
    ensures LastIndexOf(s, p) == -1 <==> !Contains(s, p)
  {
    var r := LastIndexOf(s, p);
    if r >= 0 {
      assert OccursAt(s, p, r);
    }
  }

  function LowerChar(c: char): char
  {
    if 'A' <= c <= 'Z' then (c as int + 32) as char else c
  }

  /** String.toLowerCase on ASCII letters. */
  function ToLower(s: string): (t: string)
    ensures |t| == |s|
    ensures forall i :: 0 <= i < |s| ==> t[i] == LowerChar(s[i])
  {
    seq(|s|, i requires 0 <= i < |s| => LowerChar(s[i]))
  }

  /** ToLower distributes over concatenation. */
  lemma ToLowerAppend(a: string, b: string)
    ensures ToLower(a + b) == ToLower(a) + ToLower(b)
  {
  }

  /** String.equalsIgnoreCase on ASCII letters. */
  predicate EqualsIgnoreCase(a: string, b: string)
  {
    ToLower(a) == ToLower(b)
  }

  // ---------------------------------------------------------------------
  // split
  // ---------------------------------------------------------------------

  /** The pieces of s between occurrences of c, empty ones included. */
  function Pieces(s: string, c: char): (r: seq<string>)
    ensures |r| >= 1
    ensures forall i :: 0 <= i < |r| ==> c !in r[i]
    ensures Join(r, [c]) == s
    decreases |s|
  {
    if c !in s then [s]
    else
      var k := IndexOf(s, c);
      assert forall j :: 0 <= j < k ==> s[..k][j] == s[j];
      var rest := Pieces(s[k + 1..], c);
      var r := [s[..k]] + rest;
      assert r[1..] == rest;
      assert s == s[..k] + [c] + s[k + 1..];
      r
  }

  /** n empty strings. */
  function Empties(n: nat): seq<string>
  {
    seq(n, _ => "")
  }

  /** Drop the empty strings at the end of a sequence. */
  function DropTrailingEmpty(ps: seq<string>): (r: seq<string>)
    ensures |r| <= |ps| && r == ps[..|r|]
    ensures r == [] || r[|r| - 1] != ""
    ensures forall i :: |r| <= i < |ps| ==> ps[i] == ""
  {
    if ps != [] && ps[|ps| - 1] == "" then DropTrailingEmpty(ps[..|ps| - 1]) else ps
  }

  /**
   * String.split with a one-character separator: the pieces between
   * separators, trailing empty pieces removed; a string without the
   * separator is its own single piece.
   */
  function Split(s: string, c: char): (r: seq<string>)
    ensures c !in s ==> r == [s]
    ensures forall i :: 0 <= i < |r| ==> c !in r[i]
    ensures exists n: nat :: Join(r + Empties(n), [c]) == s
  {
    if c !in s then
      assert [s] + Empties(0) == [s];
      [s]
    else
      var ps := Pieces(s, c);
      var r := DropTrailingEmpty(ps);
      assert r + Empties(|ps| - |r|) == ps;
      r
  }

  /** The first piece ends at the first separator. */
  lemma PiecesCons(a: string, b: string, c: char)
    requires c !in a
    ensures Pieces(a + [c] + b, c) == [a] + Pieces(b, c)
  {
    var s := a + [c] + b;
    assert s[|a|] == c;
    assert IndexOf(s, c) == |a| by {
      assert forall j :: 0 <= j < |a| ==> s[j] == a[j];
    }
    assert s[..|a|] == a && s[|a| + 1..] == b;
  }

  /** Splitting a + c + b, where neither part has the separator and b is not empty, gives [a, b]. */
  lemma SplitTwo(a: string, b: string, c: char)
    requires c !in a && c !in b && b != ""
    ensures Split(a + [c] + b, c) == [a, b]
  {
    PiecesCons(a, b, c);
    assert a + [c] + b == a + ([c] + b);
  }

  /** A trailing separator is dropped: a + c + b + c splits like a + c + b. */
  lemma SplitTrailing(a: string, b: string, c: char)
    requires c !in a && c !in b && b != ""
    ensures Split(a + [c] + b + [c], c) == [a, b]
  {
    var t := b + [c];
    var u := a + [c] + t;
    PiecesCons(b, "", c);
    assert b + [c] + "" == t;
    assert Pieces(t, c) == [b, ""];
    PiecesCons(a, t, c);
    assert a + [c] + b + [c] == u;
    assert u[|a|] == c;
    assert c in u;
    assert Pieces(u, c) == [a, b, ""];
    assert [a, b, ""][..2] == [a, b];
    assert DropTrailingEmpty([a, b]) == [a, b];
    assert DropTrailingEmpty([a, b, ""]) == [a, b];
  }

  /** Three non-empty parts give three pieces. */
  lemma SplitThree(a: string, b: string, d: string, c: char)
    requires c !in a && c !in b && c !in d && d != ""
    ensures |Split(a + [c] + b + [c] + d, c)| == 3
  {
    PiecesCons(b, d, c);
    PiecesCons(a, b + [c] + d, c);
    assert a + [c] + b + [c] + d == a + [c] + (b + [c] + d);
    assert c in a + [c] + b + [c] + d by { assert (a + [c] + b + [c] + d)[|a|] == c; }
  }
  // ---------------------------------------------------------------------
  // join
  // ---------------------------------------------------------------------

  /** The parts separated by sep (String.join). */
  function Join(parts: seq<string>, sep: string): string
    decreases |parts|
  {
    if parts == [] then ""
    else if |parts| == 1 then parts[0]
    else parts[0] + sep + Join(parts[1..], sep)
  }

  /** Appending one more part appends the separator and the part. */
  lemma {:induction false} JoinSnoc(parts: seq<string>, part: string, sep: string)
    requires parts != []
    ensures Join(parts + [part], sep) == Join(parts, sep) + sep + part
    decreases |parts|
  {
    if |parts| > 1 {
      assert (parts + [part])[1..] == parts[1..] + [part];
      JoinSnoc(parts[1..], part, sep);
    }
  }

  /** The parts after the first, each preceded by pad. */
  function PaddedTail(parts: seq<string>, pad: string): (r: seq<string>)
    ensures |r| == if parts == [] then 0 else |parts| - 1
    ensures forall i :: 0 <= i < |r| ==> r[i] == pad + parts[i + 1]
    decreases |parts|
  {
    if |parts| <= 1 then [] else [pad + parts[1]] + PaddedTail(parts[1..], pad)
  }

  /**
   * Parts without the character c, joined by c followed by a padding
   * without c, split back at c into the parts, each after the first
   * preceded by the padding; pre is glued to the first part.
   */
  lemma {:induction false} JoinPieces(pre: string, parts: seq<string>, c: char, pad: string)
    requires parts != [] && c !in pre && c !in pad
    requires forall i :: 0 <= i < |parts| ==> c !in parts[i]
    ensures Pieces(pre + Join(parts, [c] + pad), c) == [pre + parts[0]] + PaddedTail(parts, pad)
    decreases |parts|
  {
    var sep := [c] + pad;
    if |parts| == 1 {
      assert pre + Join(parts, sep) == pre + parts[0];
    } else {
      var first := pre + parts[0];
      var rest := Join(parts[1..], sep);
      assert c !in first;
      assert forall i :: 0 <= i < |parts[1..]| ==> c !in parts[1..][i];
      JoinPieces(pad, parts[1..], c, pad);
      assert pre + Join(parts, sep) == first + [c] + (pad + rest);
      PiecesCons(first, pad + rest, c);
    }
  }
}

/** The handful of Go `strings` functions the source relies on, written over
    `seq<char>`.  Case mapping is ASCII-only (see README). */
module Str {

  /** `strings.HasPrefix(s, p)`. */
  predicate StartsWith(s: string, p: string)
  {
    |p| <= |s| && s[..|p|] == p
  }

  /** `sub` occurs in `s` at offset `i`. */
  ghost predicate OccursAt(s: string, sub: string, i: int)
  {
    0 <= i && i + |sub| <= |s| && s[i..i + |sub|] == sub
  }

  /** `strings.Contains(s, sub)`, by scanning offsets left to right. */
  function Contains(s: string, sub: string): bool
    decreases |s|
  {
    if StartsWith(s, sub) then true
    else if |s| == 0 then false
    else Contains(s[1..], sub)
  }

  /** The scan finds `sub` exactly when it occurs somewhere in `s`. */
  lemma {:induction false} ContainsSpec(s: string, sub: string)
    ensures Contains(s, sub) <==> exists i :: OccursAt(s, sub, i)
    decreases |s|
  {
    if StartsWith(s, sub) {
      assert OccursAt(s, sub, 0);
    } else if |s| == 0 {
    } else {
      ContainsSpec(s[1..], sub);
      assert !OccursAt(s, sub, 0) by {
        assert |sub| <= |s| ==> s[0..|sub|] == s[..|sub|];
      }
      forall i | OccursAt(s, sub, i) && i > 0
        ensures OccursAt(s[1..], sub, i - 1)
      {
        assert s[1..][i - 1..i - 1 + |sub|] == s[i..i + |sub|];
      }
      forall j | OccursAt(s[1..], sub, j)
        ensures OccursAt(s, sub, j + 1)
      {
        assert s[1..][j..j + |sub|] == s[j + 1..j + 1 + |sub|];
      }
    }
  }

  /** Whether the character occurs in the string. */
  predicate HasChar(s: string, c: char)
  {
    c in s
  }

  /** ASCII upper-casing of one character. */
  function UpperChar(c: char): char
  {
    if 'a' <= c <= 'z' then (c as int - 32) as char else c
  }

  /** `strings.ToUpper`, restricted to ASCII letters. */
  function ToUpper(s: string): (r: string)
    ensures |r| == |s|
    ensures forall i :: 0 <= i < |s| ==> r[i] == UpperChar(s[i])
  {
    seq(|s|, i requires 0 <= i < |s| => UpperChar(s[i]))
  }

  /** Upper-casing twice changes nothing more than upper-casing once. */
  lemma ToUpperIdempotent(s: string)
    ensures ToUpper(ToUpper(s)) == ToUpper(s)
  {
  }

  /** Case-insensitive containment: `strings.Contains(strings.ToUpper(s), strings.ToUpper(sub))`. */
  predicate ContainsFold(s: string, sub: string)
  {
    Contains(ToUpper(s), ToUpper(sub))
  }

  /** `strings.TrimLeft(s, string(c))`: drop every leading `c`. */
  function DropLeading(s: string, c: char): (r: string)
    ensures |r| <= |s| && r == s[|s| - |r|..]
    ensures forall i :: 0 <= i < |s| - |r| ==> s[i] == c
    ensures r == [] || r[0] != c
    decreases |s|
  {
    if |s| > 0 && s[0] == c then DropLeading(s[1..], c) else s
  }

  /** `strings.TrimRight(s, string(c))`: drop every trailing `c`. */
  function DropTrailing(s: string, c: char): (r: string)
    ensures |r| <= |s| && r == s[..|r|]
    ensures forall i :: |r| <= i < |s| ==> s[i] == c
    ensures r == [] || r[|r| - 1] != c
    decreases |s|
  {
    if |s| > 0 && s[|s| - 1] == c then DropTrailing(s[..|s| - 1], c) else s
  }

  /** `strings.TrimLeft(s, " ")`. */
  function TrimLeftSpaces(s: string): string
  {
    DropLeading(s, ' ')
  }

  /** `strings.Trim(s, "\"")`: drop every leading and every trailing double quote. */
  function TrimQuotes(s: string): (r: string)
    ensures r == [] || (r[0] != '"' && r[|r| - 1] != '"')
    ensures exists i, j :: 0 <= i <= j <= |s| && r == s[i..j] &&
              forall k :: (0 <= k < i || j <= k < |s|) ==> s[k] == '"'
  {
    var t := DropLeading(s, '"');
    var r := DropTrailing(t, '"');
    assert r != [] ==> r[0] == t[0];
    TrimmedSlice(s, t, r, '"');
    r
  }

  /** Cutting `c`s off the front of `s` and then off the back leaves a
      slice of `s` with only `c`s around it. */
  lemma TrimmedSlice(s: string, t: string, r: string, c: char)
    requires |t| <= |s| && t == s[|s| - |t|..] && forall i :: 0 <= i < |s| - |t| ==> s[i] == c
    requires |r| <= |t| && r == t[..|r|] && forall i :: |r| <= i < |t| ==> t[i] == c
    ensures exists i, j :: 0 <= i <= j <= |s| && r == s[i..j] &&
              forall k :: (0 <= k < i || j <= k < |s|) ==> s[k] == c
  {
    var i, j := |s| - |t|, |s| - |t| + |r|;
    assert r == s[i..j];
    assert forall k :: j <= k < |s| ==> s[k] == t[k - i];
  }

  /** `strings.Join(xs, sep)`. */
  function Join(xs: seq<string>, sep: string): string
  {
    if |xs| == 0 then ""
    else if |xs| == 1 then xs[0]
    else xs[0] + sep + Join(xs[1..], sep)
  }

  /** Joining one more part appends the separator and the part. */
  lemma {:induction false} JoinSnoc(xs: seq<string>, x: string, sep: string)
    requires |xs| > 0
    ensures Join(xs + [x], sep) == Join(xs, sep) + sep + x
  {
    if |xs| == 1 {
      assert xs + [x] == [xs[0], x];
      assert [xs[0], x][1..] == [x];
    } else {
      assert (xs + [x])[1..] == xs[1..] + [x];
      JoinSnoc(xs[1..], x, sep);
    }
  }

  /** The position of the first `c` in `s`. */
  function IndexOf(s: string, c: char): (k: nat)
    requires c in s
    ensures k < |s| && s[k] == c && c !in s[..k]
  {
    if s[0] == c then 0
    else
      assert c in s[1..] by {
        var j :| 0 <= j < |s| && s[j] == c;
        assert s[1..][j - 1] == c;
      }
      var k := IndexOf(s[1..], c);
      assert s[..k + 1] == [s[0]] + s[1..][..k];
      k + 1
  }

  /** `strings.Split(s, string(c))`: the pieces between occurrences of `c`. */
  function Split(s: string, c: char): (parts: seq<string>)
    ensures |parts| >= 1
    ensures forall i :: 0 <= i < |parts| ==> c !in parts[i]
    decreases |s|
  {
    if c !in s then [s]
    else
      var k := IndexOf(s, c);
      [s[..k]] + Split(s[k + 1..], c)
  }

  /** Splitting and re-joining with the same separator gives back the input. */
  lemma {:induction false} SplitJoin(s: string, c: char)
    ensures Join(Split(s, c), [c]) == s
    decreases |s|
  {
    if c in s {
      var k := IndexOf(s, c);
      var head := s[..k];
      var rest := Split(s[k + 1..], c);
      SplitJoin(s[k + 1..], c);
      assert Split(s, c) == [head] + rest;
      var parts := [head] + rest;
      assert |parts| >= 2 && parts[0] == head && parts[1..] == rest;
      assert Join(parts, [c]) == head + [c] + Join(rest, [c]);
      assert s == head + [c] + s[k + 1..];
    }
  }

  /** `n` copies of `c`. */
  function Repeat(c: char, n: nat): (r: string)
    ensures |r| == n && forall i :: 0 <= i < n ==> r[i] == c
  {
    seq(n, _ => c)
  }

  /** Each full pair of `h` written as the escape `\xHH`; a trailing odd
      character is dropped. */
  function HexEscape(h: string): (r: string)
    ensures |r| == 4 * (|h| / 2)
    decreases |h|
  {
    if |h| < 2 then "" else "\\x" + h[..2] + HexEscape(h[2..])
  }

  /** The k-th escape of `HexEscape(h)` spells the k-th pair of `h`. */
  lemma {:induction false} HexEscapePairs(h: string)
    ensures forall k :: 0 <= k < |h| / 2 ==>
              HexEscape(h)[4 * k..4 * k + 4] == "\\x" + h[2 * k..2 * k + 2]
    decreases |h|
  {
    if |h| >= 2 {
      var rest := HexEscape(h[2..]);
      HexEscapePairs(h[2..]);
      var r := HexEscape(h);
      assert r == "\\x" + h[..2] + rest;
      forall k | 0 <= k < |h| / 2
        ensures r[4 * k..4 * k + 4] == "\\x" + h[2 * k..2 * k + 2]
      {
        if k > 0 {
          assert r[4 * k..4 * k + 4] == rest[4 * (k - 1)..4 * (k - 1) + 4];
          assert h[2..][2 * (k - 1)..2 * (k - 1) + 2] == h[2 * k..2 * k + 2];
        }
      }
    }
  }
}

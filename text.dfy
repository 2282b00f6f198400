/** The java.lang.String operations the core relies on: upper-casing,
    case-insensitive comparison, trim and split, restricted to ASCII. */
module Text {
  import opened Wrappers

  /** Character.toUpperCase on ASCII: a..z become A..Z, everything else is kept. */
  function UpperChar(c: char): char
  {
    if 'a' <= c <= 'z' then (c as int - 32) as char else c
  }

  /** Character.toLowerCase on ASCII. */
  function LowerChar(c: char): char
  {
    if 'A' <= c <= 'Z' then (c as int + 32) as char else c
  }

  /** String.toUpperCase, character by character. */
  function UpperCase(s: string): (r: string)
    ensures |r| == |s|
    ensures forall i :: 0 <= i < |s| ==> r[i] == UpperChar(s[i])
  {
    if s == [] then [] else [UpperChar(s[0])] + UpperCase(s[1..])
  }

  /** The per-character test of String.equalsIgnoreCase: equal, equal after
      upper-casing, or equal after upper- and then lower-casing. */
  predicate CharEqualsIgnoreCase(a: char, b: char)
  {
    a == b || UpperChar(a) == UpperChar(b) || LowerChar(UpperChar(a)) == LowerChar(UpperChar(b))
  }

  /** String.equalsIgnoreCase: same length and pairwise equal ignoring case. */
  predicate EqualsIgnoreCase(a: string, b: string)
  {
    |a| == |b| && forall i :: 0 <= i < |a| ==> CharEqualsIgnoreCase(a[i], b[i])
  }

  lemma CharEqualsIgnoreCaseIff(a: char, b: char)
    ensures CharEqualsIgnoreCase(a, b) <==> UpperChar(a) == UpperChar(b)
  {
  }

  /** equalsIgnoreCase holds exactly when both strings upper-case to the same string. */
  lemma EqualsIgnoreCaseIff(a: string, b: string)
    ensures EqualsIgnoreCase(a, b) <==> UpperCase(a) == UpperCase(b)
  {
    if EqualsIgnoreCase(a, b) {
      forall i | 0 <= i < |a| ensures UpperCase(a)[i] == UpperCase(b)[i] {
        CharEqualsIgnoreCaseIff(a[i], b[i]);
      }
    }
    if UpperCase(a) == UpperCase(b) {
      forall i | 0 <= i < |a| ensures CharEqualsIgnoreCase(a[i], b[i]) {
        assert UpperCase(a)[i] == UpperCase(b)[i];
        CharEqualsIgnoreCaseIff(a[i], b[i]);
      }
    }
  }

  /** Upper-casing twice is upper-casing once. */
  lemma UpperCaseIdempotent(s: string)
    ensures UpperCase(UpperCase(s)) == UpperCase(s)
  {
    assert forall i :: 0 <= i < |s| ==> UpperChar(UpperChar(s[i])) == UpperChar(s[i]);
  }

  /** String.trim treats every character up to U+0020 as white space. */
  predicate IsTrimmed(c: char)
  {
    c <= ' '
  }

  function TrimStart(s: string): (r: string)
    ensures |r| <= |s| && r == s[|s| - |r|..]
    ensures r != [] ==> !IsTrimmed(r[0])
  {
    if s != [] && IsTrimmed(s[0]) then TrimStart(s[1..]) else s
  }

  function TrimEnd(s: string): (r: string)
    ensures |r| <= |s| && r == s[..|r|]
    ensures r != [] ==> !IsTrimmed(r[|r| - 1])
  {
    if s != [] && IsTrimmed(s[|s| - 1]) then TrimEnd(s[..|s| - 1]) else s
  }

  /** String.trim: strip white space (characters <= U+0020) from both ends. */
  function Trim(s: string): string
  {
    TrimEnd(TrimStart(s))
  }

  /** trim().isEmpty() holds exactly when every character is white space. */
  lemma {:induction false} TrimEmptyIff(s: string)
    ensures Trim(s) == [] <==> forall i :: 0 <= i < |s| ==> IsTrimmed(s[i])
  {
    var t := TrimStart(s);
    if t == [] {
      TrimStartAllBlank(s);
    } else {
      assert |TrimEnd(t)| > 0 by {
        if TrimEnd(t) == [] { TrimEndEmpty(t); }
      }
      assert s[|s| - |t|] == t[0];
    }
  }

  lemma {:induction false} TrimStartAllBlank(s: string)
    requires TrimStart(s) == []
    ensures forall i :: 0 <= i < |s| ==> IsTrimmed(s[i])
  {
    if s != [] {
      TrimStartAllBlank(s[1..]);
      assert forall i :: 1 <= i < |s| ==> s[i] == s[1..][i - 1];
    }
  }

  lemma {:induction false} TrimEndEmpty(s: string)
    requires TrimEnd(s) == []
    ensures forall i :: 0 <= i < |s| ==> IsTrimmed(s[i])
  {
    if s != [] {
      TrimEndEmpty(s[..|s| - 1]);
      assert forall i :: 0 <= i < |s| - 1 ==> s[i] == s[..|s| - 1][i];
    }
  }

  /** Every occurrence boundary of d: the pieces between delimiters, empty ones included. */
  function SplitAll(s: string, d: char): (r: seq<string>)
    ensures |r| >= 1
    ensures forall i :: 0 <= i < |r| ==> d !in r[i]
  {
    if s == [] then [[]]
    else
      var rest := SplitAll(s[1..], d);
      if s[0] == d then [[]] + rest
      else [[s[0]] + rest[0]] + rest[1..]
  }

  /** Pieces glued back with the delimiter between them. */
  function Join(ps: seq<string>, d: char): string
  {
    if ps == [] then []
    else if |ps| == 1 then ps[0]
    else ps[0] + [d] + Join(ps[1..], d)
  }

  /** Splitting on every delimiter loses nothing: joining the pieces gives the input back. */
  lemma {:induction false} JoinSplitAll(s: string, d: char)
    ensures Join(SplitAll(s, d), d) == s
  {
    if s != [] {
      var rest := SplitAll(s[1..], d);
      JoinSplitAll(s[1..], d);
      if s[0] == d {
        assert SplitAll(s, d) == [[]] + rest;
        assert ([[]] + rest)[1..] == rest;
      } else {
        var head := [s[0]] + rest[0];
        var ps := [head] + rest[1..];
        assert SplitAll(s, d) == ps;
        if |rest| == 1 {
          assert ps == [head];
          assert Join(rest, d) == rest[0];
        } else {
          var tail := Join(rest[1..], d);
          assert ps[1..] == rest[1..];
          assert Join(ps, d) == head + [d] + tail;
          assert Join(rest, d) == rest[0] + [d] + tail;
          assert head + [d] + tail == [s[0]] + (rest[0] + [d] + tail);
        }
        assert [s[0]] + s[1..] == s;
      }
    }
  }

  /** Java's split with limit 0 drops trailing empty strings. */
  function DropTrailingEmpty(ps: seq<string>): (r: seq<string>)
    ensures |r| <= |ps| && r == ps[..|r|]
    ensures forall i :: |r| <= i < |ps| ==> ps[i] == []
    ensures r != [] ==> r[|r| - 1] != []
  {
    if ps != [] && ps[|ps| - 1] == [] then DropTrailingEmpty(ps[..|ps| - 1]) else ps
  }

  /** String.split(d) for a delimiter that is one literal character: the input
      itself when the delimiter does not occur, otherwise the pieces between
      delimiters with trailing empty pieces removed. */
  function Split(s: string, d: char): seq<string>
  {
    if d !in s then [s] else DropTrailingEmpty(SplitAll(s, d))
  }

  /** The pieces of Split hold no delimiter, and followed by the dropped empty
      pieces they join back to the input. */
  lemma SplitRecovers(s: string, d: char)
    ensures d !in s ==> Split(s, d) == [s]
    ensures d in s && Split(s, d) != [] ==> Split(s, d)[|Split(s, d)| - 1] != []
    ensures forall i :: 0 <= i < |Split(s, d)| ==> d !in Split(s, d)[i]
    ensures var all := SplitAll(s, d);
            var ps := Split(s, d);
            |ps| <= |all| && ps == all[..|ps|] &&
            (forall i :: |ps| <= i < |all| ==> all[i] == []) &&
            Join(all, d) == s
  {
    JoinSplitAll(s, d);
  }

  /** String concatenation of a possibly-null string, as StringBuilder.append and
      the + operator render it: null reads "null". */
  function Render(s: Option<string>): (r: string)
    ensures s.Some? ==> r == s.value
  {
    if s.Some? then s.value else "null"
  }

  predicate StartsWith(s: string, prefix: string)
  {
    |prefix| <= |s| && s[..|prefix|] == prefix
  }

  /** String.contains. */
  predicate Contains(s: string, sub: string)
    decreases |s|
  {
    StartsWith(s, sub) || (s != [] && Contains(s[1..], sub))
  }

  /** contains holds exactly when sub occurs at some position. */
  lemma {:induction false} ContainsIff(s: string, sub: string)
    ensures Contains(s, sub) <==> exists i :: 0 <= i <= |s| - |sub| && StartsWith(s[i..], sub)
  {
    assert s[0..] == s;
    if s != [] {
      ContainsIff(s[1..], sub);
      if Contains(s[1..], sub) {
        var i :| 0 <= i <= |s[1..]| - |sub| && StartsWith(s[1..][i..], sub);
        assert s[1..][i..] == s[i + 1..];
      }
      if i :| 0 <= i <= |s| - |sub| && StartsWith(s[i..], sub) {
        if i > 0 {
          assert s[1..][i - 1..] == s[i..];
        }
      }
    }
  }
}

/**
 * The string helpers of Go's `strings` package that the configuration code and the
 * sysfs filter use, on strings as sequences of characters.
 */
module Text {
  import opened Seqs

  /** `unicode.IsSpace`: the ASCII spaces, U+0085, U+00A0 and the Unicode White_Space characters. */
  predicate IsSpace(c: char)
  {
    var n := c as int;
    (9 <= n <= 13) || n == 0x20 || n == 0x85 || n == 0xA0 || n == 0x1680
    || (0x2000 <= n <= 0x200A) || n == 0x2028 || n == 0x2029 || n == 0x202F
    || n == 0x205F || n == 0x3000
  }

  /** The lower-case form of an ASCII letter; every other character is kept. */
  function LowerChar(c: char): (r: char)
    ensures 'A' <= c <= 'Z' ==> r as int == c as int + 32
    ensures !('A' <= c <= 'Z') ==> r == c
  {
    if 'A' <= c <= 'Z' then (c as int + 32) as char else c
  }

  /** `strings.ToLower` on ASCII letters. */
  function Lower(s: string): (r: string)
    ensures |r| == |s| && forall i :: 0 <= i < |s| ==> r[i] == LowerChar(s[i])
  {
    if s == [] then [] else [LowerChar(s[0])] + Lower(s[1..])
  }

  /** `strings.Replace(s, string(c), t, -1)`: every occurrence of c becomes t. */
  function Replace(s: string, c: char, t: string): (r: string)
    ensures c !in t ==> c !in r
    ensures forall d :: d in r ==> d in s || d in t
  {
    if s == [] then [] else (if s[0] == c then t else [s[0]]) + Replace(s[1..], c, t)
  }

  /** `strings.Split(s, string(c))`: the pieces between the occurrences of c; "" splits into [""]. */
  function Split(s: string, c: char): (r: seq<string>)
    ensures |r| >= 1
    ensures forall i :: 0 <= i < |r| ==> c !in r[i]
  {
    if s == [] then [[]]
    else
      var rest := Split(s[1..], c);
      if s[0] == c then [[]] + rest else [[s[0]] + rest[0]] + rest[1..]
  }

  /** `strings.Join(parts, string(c))`. */
  function Join(parts: seq<string>, c: char): string
  {
    if parts == [] then []
    else if |parts| == 1 then parts[0]
    else parts[0] + [c] + Join(parts[1..], c)
  }

  predicate HasPrefix(s: string, p: string)
  {
    |p| <= |s| && s[..|p|] == p
  }

  predicate HasSuffix(s: string, p: string)
  {
    |p| <= |s| && s[|s| - |p|..] == p
  }

  /** `strings.TrimSuffix`: drop one trailing copy of p. */
  function TrimSuffix(s: string, p: string): (r: string)
    ensures HasSuffix(s, p) ==> r + p == s
    ensures !HasSuffix(s, p) ==> r == s
  {
    if HasSuffix(s, p) then s[..|s| - |p|] else s
  }

  function TrimLeft(s: string): (r: string)
    ensures |r| <= |s| && r == s[|s| - |r|..]
    ensures forall i :: 0 <= i < |s| - |r| ==> IsSpace(s[i])
    ensures r == [] || !IsSpace(r[0])
  {
    if s != [] && IsSpace(s[0]) then TrimLeft(s[1..]) else s
  }

  function TrimRight(s: string): (r: string)
    ensures |r| <= |s| && r == s[..|r|]
    ensures forall i :: |r| <= i < |s| ==> IsSpace(s[i])
    ensures r == [] || !IsSpace(r[|r| - 1])
  {
    if s != [] && IsSpace(s[|s| - 1]) then TrimRight(s[..|s| - 1]) else s
  }

  /** `strings.TrimSpace`: drop the leading and trailing white space. */
  function TrimSpace(s: string): (r: string)
  {
    TrimRight(TrimLeft(s))
  }

  /** The MAC normalisation of the host lookups: lower case, and every '-' becomes ':'. */
  function NormalizeMac(mac: string): (r: string)
    ensures '-' !in r
  {
    Replace(Lower(mac), '-', ":")
  }

  // ---------------------------------------------------------------------------------------
  // Properties

  /** Trimming the suffix p from s + p gives s back. */
  lemma TrimSuffixConcat(s: string, p: string)
    ensures HasSuffix(s + p, p) && TrimSuffix(s + p, p) == s
  {
    AppendParts(s, p);
  }

  /**
   * TrimSpace keeps a middle slice of s: it removes only white space, from both ends, and
   * leaves none at either end.
   */
  lemma TrimSpaceSlice(s: string)
    ensures var r := TrimSpace(s);
      var i := |s| - |TrimLeft(s)|;
      && i + |r| <= |s| && r == s[i..i + |r|]
      && (forall k :: 0 <= k < i ==> IsSpace(s[k]))
      && (forall k :: i + |r| <= k < |s| ==> IsSpace(s[k]))
      && (r == [] || (!IsSpace(r[0]) && !IsSpace(r[|r| - 1])))
  {
    TrimSpaceMiddle(s);
    TrimSpaceTrailing(s);
    TrimSpaceEnds(s);
  }

  lemma TrimSpaceMiddle(s: string)
    ensures var i := |s| - |TrimLeft(s)|;
      i + |TrimSpace(s)| <= |s| && TrimSpace(s) == s[i..i + |TrimSpace(s)|]
  {
    var l := TrimLeft(s);
    SliceOfSuffix(s, |s| - |l|, |TrimRight(l)|);
  }

  lemma TrimSpaceTrailing(s: string)
    ensures var i := |s| - |TrimLeft(s)|;
      forall k :: i + |TrimSpace(s)| <= k < |s| ==> IsSpace(s[k])
  {
    var l := TrimLeft(s);
    var r := TrimRight(l);
    var i := |s| - |l|;
    forall k | i + |r| <= k < |s| ensures IsSpace(s[k]) {
      assert s[k] == l[k - i];
    }
  }

  lemma TrimSpaceEnds(s: string)
    ensures var r := TrimSpace(s); r == [] || (!IsSpace(r[0]) && !IsSpace(r[|r| - 1]))
  {
    var l := TrimLeft(s);
    if TrimRight(l) != [] {
      assert TrimRight(l)[0] == l[0];
    }
  }

  /** Joining the pieces of a split restores the string. */
  lemma {:induction false} JoinSplit(s: string, c: char)
    ensures Join(Split(s, c), c) == s
  {
    if s != [] {
      var rest := Split(s[1..], c);
      JoinSplit(s[1..], c);
      if s[0] == c {
        assert Split(s, c)[1..] == rest;
      } else {
        var r := Split(s, c);
        assert r[1..] == rest[1..];
        if |rest| == 1 {
          assert r == [[s[0]] + rest[0]];
        } else {
          assert Join(rest, c) == rest[0] + [c] + Join(rest[1..], c);
          assert r[1..][1..] == rest[1..][1..];
        }
      }
    }
  }

  /** Splitting a join of pieces that do not contain the separator gives the pieces back. */
  lemma {:induction false} SplitJoin(parts: seq<string>, c: char)
    requires |parts| >= 1
    requires forall i :: 0 <= i < |parts| ==> c !in parts[i]
    ensures Split(Join(parts, c), c) == parts
    decreases |parts|
  {
    if |parts| == 1 {
      SplitNoSeparator(parts[0], [], c);
      assert parts[0] + [] == parts[0];
    } else {
      SplitJoin(parts[1..], c);
      var tail := [c] + Join(parts[1..], c);
      assert Join(parts, c) == parts[0] + tail;
      SplitNoSeparator(parts[0], tail, c);
      assert tail[1..] == Join(parts[1..], c);
      HeadTail(parts);
    }
  }

  /** A prefix without the separator joins the first piece of what follows it. */
  lemma {:induction false} SplitNoSeparator(p: string, t: string, c: char)
    requires c !in p
    ensures Split(p + t, c) == [p + Split(t, c)[0]] + Split(t, c)[1..]
    ensures t != [] && t[0] == c ==> Split(p + t, c) == [p] + Split(t[1..], c)
  {
    if p != [] {
      SplitNoSeparator(p[1..], t, c);
      assert (p + t)[1..] == p[1..] + t;
      assert [p[0]] + (p[1..] + Split(t, c)[0]) == p + Split(t, c)[0];
      if t != [] && t[0] == c {
        assert [p[0]] + p[1..] == p;
      }
    } else {
      assert p + t == t;
      assert p + Split(t, c)[0] == Split(t, c)[0];
      HeadTail(Split(t, c));
      if t != [] {
        if t[0] == c {
          assert Split(t, c)[0] == [];
          assert Split(t, c)[1..] == Split(t[1..], c);
        }
      } else {
        assert Split(t, c) == [[]];
      }
    }
  }

  /** Lower-casing twice is lower-casing once. */
  lemma LowerIdempotent(s: string)
    ensures Lower(Lower(s)) == Lower(s)
  {
  }

  /** Lower-casing keeps '-', so a string with a '-' keeps it. */
  lemma LowerKeepsDash(s: string)
    ensures '-' in s ==> '-' in Lower(s)
  {
    if '-' in s {
      var i :| 0 <= i < |s| && s[i] == '-';
      assert Lower(s)[i] == '-';
    }
  }

  /** Characters equal up to ASCII case, or both in {'-', ':'}, normalise alike. */
  predicate SameMacChar(a: char, b: char)
  {
    var x := LowerChar(a);
    var y := LowerChar(b);
    x == y || ((x == '-' || x == ':') && (y == '-' || y == ':'))
  }

  /** Two MAC spellings that differ only in letter case and in '-' versus ':' normalise alike. */
  lemma {:induction false} NormalizeMacAlike(a: string, b: string)
    requires |a| == |b| && forall i :: 0 <= i < |a| ==> SameMacChar(a[i], b[i])
    ensures NormalizeMac(a) == NormalizeMac(b)
  {
    if a != [] {
      NormalizeMacAlike(a[1..], b[1..]);
      assert Lower(a)[1..] == Lower(a[1..]);
      assert Lower(b)[1..] == Lower(b[1..]);
    }
  }
}

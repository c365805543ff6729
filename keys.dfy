/** Pool keys: both FoxPool classes format a caller's key as "[" + key.ToLower().Trim() + "]"
    and suffix it with the worker's unique id to build the dictionary key of an idle worker.
    A lookup for a key is a prefix match of the formatted key against the dictionary keys. */
module PoolKeys {
  import opened Interop

  /** The characters String.Trim() removes that the model knows about: space and the
      ASCII controls tab, line feed, vertical tab, form feed and carriage return. */
  predicate IsWhiteSpace(c: char)
  {
    c == ' ' || '\t' <= c <= '\r'
  }

  predicate AllWhiteSpace(s: string)
  {
    forall i :: 0 <= i < |s| ==> IsWhiteSpace(s[i])
  }

  /** Neither end of `s` is white space. */
  predicate Trimmed(s: string)
  {
    s == [] || (!IsWhiteSpace(s[0]) && !IsWhiteSpace(s[|s| - 1]))
  }

  /** ASCII lower-casing of one character. */
  function LowerChar(c: char): char
  {
    if 'A' <= c <= 'Z' then (c as int + 32) as char else c
  }

  /** String.ToLower() over ASCII letters: the result has no capital letter, and a string
      without one is left as it is (so lower-casing twice is lower-casing once). */
  function Lower(s: string): (r: string)
    ensures |r| == |s|
    ensures forall i :: 0 <= i < |s| ==> r[i] == LowerChar(s[i])
    ensures NoUpper(r)
    ensures NoUpper(s) ==> r == s
  {
    seq(|s|, i requires 0 <= i < |s| => LowerChar(s[i]))
  }

  /** String.TrimStart(): drops leading white space. */
  function TrimStart(s: string): string
  {
    if |s| > 0 && IsWhiteSpace(s[0]) then TrimStart(s[1..]) else s
  }

  /** String.TrimEnd(): drops trailing white space. */
  function TrimEnd(s: string): string
  {
    if |s| > 0 && IsWhiteSpace(s[|s| - 1]) then TrimEnd(s[..|s| - 1]) else s
  }

  /** TrimStart keeps a suffix of `s` that does not start with white space, and everything
      it dropped was white space. */
  lemma {:induction false} TrimStartSplits(s: string) returns (n: nat)
    ensures n <= |s| && TrimStart(s) == s[n..] && AllWhiteSpace(s[..n])
    ensures n == |s| || !IsWhiteSpace(s[n])
  {
    if |s| > 0 && IsWhiteSpace(s[0]) {
      var m := TrimStartSplits(s[1..]);
      n := m + 1;
      assert s[1..][m..] == s[n..];
      forall i | 0 <= i < n
        ensures IsWhiteSpace(s[..n][i])
      {
        if i > 0 {
          assert s[..n][i] == s[1..][..m][i - 1];
        }
      }
    } else {
      n := 0;
    }
  }

  /** TrimEnd keeps a prefix of `s` that does not end with white space, and everything it
      dropped was white space. */
  lemma {:induction false} TrimEndSplits(s: string) returns (n: nat)
    ensures n <= |s| && TrimEnd(s) == s[..n] && AllWhiteSpace(s[n..])
    ensures n == 0 || !IsWhiteSpace(s[n - 1])
  {
    if |s| > 0 && IsWhiteSpace(s[|s| - 1]) {
      var u := s[..|s| - 1];
      n := TrimEndSplits(u);
      assert u[..n] == s[..n];
      forall i | n <= i < |s|
        ensures IsWhiteSpace(s[i])
      {
        if i < |s| - 1 {
          assert s[i] == u[n..][i - n];
        }
      }
    } else {
      n := |s|;
    }
  }

  /** String.Trim(): the part of `s` between its leading and its trailing white space. */
  function Trim(s: string): string
  {
    TrimEnd(TrimStart(s))
  }

  /** FoxPool.FormatKey: "[" + objectKey.ToLower().Trim() + "]". */
  function FormatKey(key: string): string
  {
    "[" + Trim(Lower(key)) + "]"
  }

  /** No ASCII capital letter in `s`. */
  predicate NoUpper(s: string)
  {
    forall i :: 0 <= i < |s| ==> !('A' <= s[i] <= 'Z')
  }

  /** Every string is its trimmed core with white space on both sides, and the core
      neither starts nor ends with white space. */
  lemma TrimSplits(s: string) returns (lead: string, trail: string)
    ensures s == lead + Trim(s) + trail && AllWhiteSpace(lead) && AllWhiteSpace(trail)
    ensures Trimmed(Trim(s))
  {
    var n := TrimStartSplits(s);
    var t := s[n..];
    var m := TrimEndSplits(t);
    lead, trail := s[..n], t[m..];
    assert Trim(s) == t[..m];
    assert t[..m] + t[m..] == t;
    assert s[..n] + t == s;
    if m > 0 {
      assert t[..m][0] == t[0] && t[..m][m - 1] == t[m - 1];
    }
  }

  /** The characters of a middle part are those of the whole at the offset of the part. */
  lemma CharsOfMiddle(s: string, lead: string, t: string, trail: string)
    requires s == lead + t + trail
    ensures forall i :: 0 <= i < |t| ==> t[i] == s[|lead| + i]
  {
  }

  /** A formatted key is bracket-delimited, and between the brackets it has no capital
      letter and no white space at either end. */
  lemma FormatKeyShape(key: string)
    ensures var r := FormatKey(key);
      && |r| >= 2 && r[0] == '[' && r[|r| - 1] == ']'
      && NoUpper(r[1..|r| - 1]) && Trimmed(r[1..|r| - 1])
  {
    var l := Lower(key);
    var t := Trim(l);
    forall i | 0 <= i < |l| ensures !('A' <= l[i] <= 'Z') {
      assert l[i] == LowerChar(key[i]);
    }
    var lead, trail := TrimSplits(l);
    CharsOfMiddle(l, lead, t, trail);
    var r := FormatKey(key);
    assert r[1..|r| - 1] == t;
  }

  lemma AllWhiteSpaceConcat(x: string, y: string)
    requires AllWhiteSpace(x) && AllWhiteSpace(y)
    ensures AllWhiteSpace(x + y)
  {
    assert forall i :: 0 <= i < |x + y| ==> (x + y)[i] == if i < |x| then x[i] else y[i - |x|];
  }

  /** A prefix test by exact comparison of characters. The pools call
      String.StartsWith(string), which compares under the current culture; the model does
      not capture culture-specific equivalences. */
  predicate StartsWith(s: string, prefix: string)
  {
    |prefix| <= |s| && s[..|prefix|] == prefix
  }

  /** Two characters are equal, or one is an ASCII capital and the other its small letter. */
  predicate SameLetter(x: char, y: char)
  {
    || x == y
    || ('A' <= x <= 'Z' && y as int == x as int + 32)
    || ('A' <= y <= 'Z' && x as int == y as int + 32)
  }

  /** Two keys that differ only in the case of ASCII letters. */
  predicate SameIgnoringCase(a: string, b: string)
  {
    |a| == |b| && forall i :: 0 <= i < |a| ==> SameLetter(a[i], b[i])
  }

  /** Two keys lower-case alike exactly when they differ only in the case of ASCII
      letters. */
  lemma LowerMatchesIgnoringCase(a: string, b: string)
    ensures SameIgnoringCase(a, b) <==> Lower(a) == Lower(b)
  {
    if |a| == |b| {
      forall i | 0 <= i < |a|
        ensures SameLetter(a[i], b[i]) <==> Lower(a)[i] == Lower(b)[i]
      {
        LowerCharMatches(a[i], b[i]);
      }
    }
  }

  /** Two characters lower-case alike exactly when they are the same letter. */
  lemma LowerCharMatches(x: char, y: char)
    ensures SameLetter(x, y) <==> LowerChar(x) == LowerChar(y)
  {
  }

  lemma {:induction false} TrimStartOfPadded(p: string, y: string)
    requires AllWhiteSpace(p)
    requires y == [] || !IsWhiteSpace(y[0])
    ensures TrimStart(p + y) == y
  {
    if p != [] {
      assert (p + y)[1..] == p[1..] + y;
      TrimStartOfPadded(p[1..], y);
    }
  }

  lemma {:induction false} TrimEndOfPadded(y: string, q: string)
    requires AllWhiteSpace(q)
    requires y == [] || !IsWhiteSpace(y[|y| - 1])
    ensures TrimEnd(y + q) == y
  {
    if q != [] {
      assert (y + q)[..|y + q| - 1] == y + q[..|q| - 1];
      TrimEndOfPadded(y, q[..|q| - 1]);
    }
  }

  /** Trim removes exactly the white-space padding around a trimmed core. */
  lemma TrimOfPadded(p: string, m: string, q: string)
    requires AllWhiteSpace(p) && AllWhiteSpace(q) && Trimmed(m)
    ensures Trim(p + m + q) == m
  {
    if m == [] {
      assert p + m + q == (p + q) + [];
      TrimStartOfPadded(p + q, []);
    } else {
      assert p + m + q == p + (m + q);
      TrimStartOfPadded(p, m + q);
      TrimEndOfPadded(m, q);
    }
  }

  /** White space around a key never matters to Trim. */
  lemma TrimIgnoresPadding(pre: string, s: string, post: string)
    requires AllWhiteSpace(pre) && AllWhiteSpace(post)
    ensures Trim(pre + s + post) == Trim(s)
  {
    var m := Trim(s);
    var lead, trail := TrimSplits(s);
    assert pre + s + post == (pre + lead) + m + (trail + post);
    AllWhiteSpaceConcat(pre, lead);
    AllWhiteSpaceConcat(trail, post);
    TrimOfPadded(pre + lead, m, trail + post);
  }

  /** Keys that differ only in ASCII letter case or in surrounding white space format
      identically. */
  lemma FormatKeyNormalizes(pre: string, a: string, b: string, post: string)
    requires AllWhiteSpace(pre) && AllWhiteSpace(post)
    requires SameIgnoringCase(a, b)
    ensures FormatKey(pre + a + post) == FormatKey(b)
  {
    LowerMatchesIgnoringCase(a, b);
    var lowered := Lower(pre + a + post);
    assert lowered == Lower(pre) + Lower(b) + Lower(post);
    TrimIgnoresPadding(Lower(pre), Lower(b), Lower(post));
  }

  /** Lower-casing and trimming never produce a closing bracket. */
  lemma NoBracketInFormatted(key: string)
    requires ']' !in key
    ensures ']' !in Trim(Lower(key))
  {
    var l := Lower(key);
    assert forall i :: 0 <= i < |l| ==> l[i] != ']';
    var lead, trail := TrimSplits(l);
    CharsOfMiddle(l, lead, Trim(l), trail);
  }

  /** For keys without a closing bracket, the dictionary key of a worker stored under `stored`
      starts with the formatted `wanted` key exactly when both keys format alike: the closing
      bracket keeps "a" from matching entries stored under "ab". */
  lemma PrefixMatchIsExact(wanted: string, stored: string, id: string)
    requires ']' !in wanted && ']' !in stored
    ensures StartsWith(FormatKey(stored) + id, FormatKey(wanted)) <==> FormatKey(wanted) == FormatKey(stored)
  {
    var a := Trim(Lower(wanted));
    var b := Trim(Lower(stored));
    NoBracketInFormatted(wanted);
    NoBracketInFormatted(stored);
    var find := FormatKey(wanted);
    var dict := FormatKey(stored) + id;
    assert find == "[" + a + "]" && dict == "[" + b + "]" + id;
    assert StartsWith(dict, FormatKey(stored)) by {
      assert dict[..|FormatKey(stored)|] == FormatKey(stored);
    }
    if |a| < |b| {
      ShorterKeyDoesNotMatch(a, b, id);
    } else if |b| < |a| {
      LongerKeyDoesNotMatch(a, b, id);
    }
    if StartsWith(dict, find) {
      assert dict[..|find|] == "[" + b + "]";
    }
  }

  lemma ShorterKeyDoesNotMatch(a: string, b: string, id: string)
    requires ']' !in b && |a| < |b|
    ensures !StartsWith("[" + b + "]" + id, "[" + a + "]")
  {
    var dict, find := "[" + b + "]" + id, "[" + a + "]";
    assert dict[|a| + 1] == b[|a|] && find[|a| + 1] == ']';
    assert dict[..|find|][|a| + 1] == b[|a|];
  }

  lemma LongerKeyDoesNotMatch(a: string, b: string, id: string)
    requires ']' !in a && |b| < |a|
    ensures !StartsWith("[" + b + "]" + id, "[" + a + "]")
  {
    var dict, find := "[" + b + "]" + id, "[" + a + "]";
    assert find[|b| + 1] == a[|b|] && dict[|b| + 1] == ']';
    assert |find| <= |dict| ==> dict[..|find|][|b| + 1] == ']';
  }

  /** Dictionary key `dictKey` is a candidate for a lookup with formatted key `findKey`
      (no key: every entry is). */
  predicate Matches(dictKey: string, findKey: Option<string>)
  {
    findKey.None? || StartsWith(dictKey, findKey.value)
  }

  /** One call of AddObject: the dictionary key it tried and whether it inserted. */
  datatype Offer = Offer(dictKey: string, accepted: bool)
}

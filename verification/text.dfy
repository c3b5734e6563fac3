/** The java.lang.String operations the tracker relies on: trim, isBlank,
    split on a single character, and equalsIgnoreCase. */
module Text {

  /** `trim` removes every code unit up to and including U+0020 from both ends. */
  predicate IsTrimmable(c: char) {
    c <= ' '
  }

  /** A string that `trim` leaves as it is. */
  predicate IsTrimmed(s: string) {
    |s| == 0 || (!IsTrimmable(s[0]) && !IsTrimmable(s[|s| - 1]))
  }

  function TrimStart(s: string): (r: string)
    ensures |r| <= |s| && r == s[|s| - |r|..]
    ensures forall k :: 0 <= k < |s| - |r| ==> IsTrimmable(s[k])
    ensures |r| == 0 || !IsTrimmable(r[0])
    decreases |s|
  {
    if |s| > 0 && IsTrimmable(s[0]) then TrimStart(s[1..]) else s
  }

  function TrimEnd(s: string): (r: string)
    ensures |r| <= |s| && r == s[..|r|]
    ensures forall k :: |r| <= k < |s| ==> IsTrimmable(s[k])
    ensures |r| == 0 || !IsTrimmable(r[|r| - 1])
    decreases |s|
  {
    if |s| > 0 && IsTrimmable(s[|s| - 1]) then TrimEnd(s[..|s| - 1]) else s
  }

  /** `r` is `s` with `a` trimmable characters taken from its front and only
      trimmable characters taken from its back. */
  predicate StripsTo(s: string, a: int, r: string) {
    && 0 <= a <= |s| - |r|
    && r == s[a..a + |r|]
    && (forall k :: 0 <= k < a ==> IsTrimmable(s[k]))
    && (forall k :: a + |r| <= k < |s| ==> IsTrimmable(s[k]))
  }

  /** String.trim: drops the leading, then the trailing, control and space characters. */
  function Trim(s: string): (r: string)
    ensures IsTrimmed(r)
    ensures |r| <= |s|
  {
    TrimEnd(TrimStart(s))
  }

  /** Trim removes nothing but characters at or below a space, and only at
      the two ends: the result is a slice of the input. */
  lemma TrimStrips(s: string)
    ensures exists a :: StripsTo(s, a, Trim(s))
  {
    var t := TrimStart(s);
    StripsToOfSuffixPrefix(s, t, TrimEnd(t));
    assert StripsTo(s, |s| - |t|, Trim(s));
  }

  /** Cutting trimmable characters off the front and then off the back
      strips `s` to the part left over. */
  lemma StripsToOfSuffixPrefix(s: string, t: string, r: string)
    requires |t| <= |s| && t == s[|s| - |t|..]
    requires forall k :: 0 <= k < |s| - |t| ==> IsTrimmable(s[k])
    requires |r| <= |t| && r == t[..|r|]
    requires forall k :: |r| <= k < |t| ==> IsTrimmable(t[k])
    ensures StripsTo(s, |s| - |t|, r)
  {
    var a := |s| - |t|;
    forall k | a + |r| <= k < |s|
      ensures IsTrimmable(s[k])
    {
      assert s[k] == t[k - a];
    }
  }

  /** Trimming changes exactly the strings that are not already trimmed,
      which also makes it idempotent. */
  lemma TrimFixesTrimmed(s: string)
    ensures Trim(s) == s <==> IsTrimmed(s)
    ensures Trim(Trim(s)) == Trim(s)
  {
    if IsTrimmed(s) {
      assert TrimStart(s) == s;
      assert TrimEnd(s) == s;
    }
    var t := Trim(s);
    assert TrimStart(t) == t;
    assert TrimEnd(t) == t;
  }

  /** Character.isWhitespace: the Unicode space, line and paragraph separators
      except the three no-break spaces, plus U+0009..U+000D and U+001C..U+001F. */
  predicate IsJavaWhitespace(c: char) {
    || ('\U{9}' <= c <= '\U{D}')
    || ('\U{1C}' <= c <= '\U{20}')
    || c == '\U{1680}'
    || ('\U{2000}' <= c <= '\U{2006}')
    || ('\U{2008}' <= c <= '\U{200A}')
    || c == '\U{2028}' || c == '\U{2029}'
    || c == '\U{205F}' || c == '\U{3000}'
  }

  /** String.isBlank: empty or made only of whitespace. */
  predicate IsBlank(s: string) {
    forall k :: 0 <= k < |s| ==> IsJavaWhitespace(s[k])
  }

  // ---------------------------------------------------------------------
  // Splitting on one delimiter character

  /** The position of the first `c` in `s`. */
  function IndexOf(s: string, c: char): (k: nat)
    requires c in s
    ensures k < |s| && s[k] == c
    ensures c !in s[..k]
  {
    if s[0] == c then 0 else 1 + IndexOf(s[1..], c)
  }

  /** In `prefix + [c] + rest` with no `c` in `prefix`, the first `c` is the one after the prefix. */
  lemma IndexOfAfterPrefix(prefix: string, c: char, rest: string)
    requires c !in prefix
    ensures c in prefix + [c] + rest
    ensures IndexOf(prefix + [c] + rest, c) == |prefix|
  {
    var s := prefix + [c] + rest;
    assert s[|prefix|] == c;
    var k := IndexOf(s, c);
    assert forall j :: 0 <= j < |prefix| ==> s[j] == prefix[j];
    assert k <= |prefix| ==> s[..k] == prefix[..k];
  }

  /** The fields joined by single separators: the writer's side of a delimited line. */
  function Join(fields: seq<string>, sep: char): string
  {
    if |fields| == 0 then ""
    else if |fields| == 1 then fields[0]
    else fields[0] + [sep] + Join(fields[1..], sep)
  }

  /** Joining five fields puts one separator between each neighbouring pair. */
  lemma JoinFive(a: string, b: string, c: string, d: string, e: string, sep: char)
    ensures Join([a, b, c, d, e], sep) == a + [sep] + b + [sep] + c + [sep] + d + [sep] + e
  {
    assert [d, e][1..] == [e];
    assert Join([e], sep) == e;
    var j3 := Join([d, e], sep);
    assert j3 == d + [sep] + e;
    assert [c, d, e][1..] == [d, e];
    var j2 := Join([c, d, e], sep);
    assert j2 == c + [sep] + j3;
    assert [b, c, d, e][1..] == [c, d, e];
    var j1 := Join([b, c, d, e], sep);
    assert j1 == b + [sep] + j2;
    assert [a, b, c, d, e][1..] == [b, c, d, e];
    assert Join([a, b, c, d, e], sep) == a + [sep] + j1;
  }

  /** Every field between separators, empty ones included (a string with
      n separators has n + 1 fields). */
  function SplitFields(s: string, sep: char): (r: seq<string>)
    ensures |r| >= 1
    ensures forall i :: 0 <= i < |r| ==> sep !in r[i]
    decreases |s|
  {
    if sep !in s then [s]
    else
      var k := IndexOf(s, sep);
      [s[..k]] + SplitFields(s[k + 1..], sep)
  }

  /** Splitting and re-joining gives back the original string. */
  lemma {:induction false} JoinSplitFields(s: string, sep: char)
    ensures Join(SplitFields(s, sep), sep) == s
    decreases |s|
  {
    if sep in s {
      var k := IndexOf(s, sep);
      var tail := SplitFields(s[k + 1..], sep);
      JoinSplitFields(s[k + 1..], sep);
      var fields := [s[..k]] + tail;
      assert SplitFields(s, sep) == fields;
      assert fields[0] == s[..k] && fields[1..] == tail;
      assert Join(fields, sep) == s[..k] + [sep] + Join(tail, sep);
      assert s == s[..k] + [sep] + s[k + 1..];
    }
  }

  /** Joining separator-free fields and splitting again gives back the fields. */
  lemma {:induction false} SplitFieldsJoin(fields: seq<string>, sep: char)
    requires |fields| >= 1
    requires forall i :: 0 <= i < |fields| ==> sep !in fields[i]
    ensures SplitFields(Join(fields, sep), sep) == fields
    decreases |fields|
  {
    var head := fields[0];
    if |fields| == 1 {
      assert fields == [head];
    } else {
      var rest := fields[1..];
      var tail := Join(rest, sep);
      var s := Join(fields, sep);
      assert s == head + [sep] + tail;
      IndexOfAfterPrefix(head, sep, tail);
      assert s[..|head|] == head && s[|head| + 1..] == tail;
      assert SplitFields(s, sep) == [head] + SplitFields(tail, sep);
      SplitFieldsJoin(rest, sep);
      assert fields == [head] + rest;
    }
  }

  /** Joining separator-free fields puts exactly one separator between each
      neighbouring pair and no other. */
  lemma {:induction false} SeparatorCountOfJoin(fields: seq<string>, sep: char)
    requires |fields| >= 1
    requires forall i :: 0 <= i < |fields| ==> sep !in fields[i]
    ensures multiset(Join(fields, sep))[sep] == |fields| - 1
    decreases |fields|
  {
    assert multiset(fields[0])[sep] == 0;
    if |fields| > 1 {
      var rest := fields[1..];
      SeparatorCountOfJoin(rest, sep);
      assert multiset(Join(fields, sep)) == multiset(fields[0]) + multiset([sep]) + multiset(Join(rest, sep));
    }
  }

  /** Drops empty fields from the end, as String.split does with a zero limit. */
  function DropTrailingEmpty(fields: seq<string>): (r: seq<string>)
    ensures |r| <= |fields| && r == fields[..|r|]
    ensures forall i :: |r| <= i < |fields| ==> fields[i] == ""
    ensures |r| == 0 || r[|r| - 1] != ""
  {
    if |fields| > 0 && fields[|fields| - 1] == "" then DropTrailingEmpty(fields[..|fields| - 1])
    else fields
  }

  /** String.split with a one-character, non-meta pattern and no limit:
      a string without the separator comes back whole (so "" gives one empty
      part); otherwise all fields are cut and the empty ones at the end dropped. */
  function JavaSplit(s: string, sep: char): (r: seq<string>)
    ensures forall i :: 0 <= i < |r| ==> sep !in r[i]
    ensures sep !in s ==> r == [s]
  {
    if sep !in s then [s] else DropTrailingEmpty(SplitFields(s, sep))
  }

  /** Splitting the join of at least two separator-free fields, the last one
      non-empty, returns exactly those fields. */
  lemma JavaSplitJoin(fields: seq<string>, sep: char)
    requires |fields| >= 2
    requires forall i :: 0 <= i < |fields| ==> sep !in fields[i]
    requires fields[|fields| - 1] != ""
    ensures JavaSplit(Join(fields, sep), sep) == fields
  {
    var s := Join(fields, sep);
    assert s == fields[0] + [sep] + Join(fields[1..], sep);
    assert s[|fields[0]|] == sep;
    SplitFieldsJoin(fields, sep);
  }

  /** An empty last field after a non-empty one is dropped by the split. */
  lemma JavaSplitDropsEmptyLast(fields: seq<string>, sep: char)
    requires |fields| >= 2
    requires forall i :: 0 <= i < |fields| ==> sep !in fields[i]
    requires fields[|fields| - 2] != "" && fields[|fields| - 1] == ""
    ensures JavaSplit(Join(fields, sep), sep) == fields[..|fields| - 1]
  {
    var s := Join(fields, sep);
    assert s == fields[0] + [sep] + Join(fields[1..], sep);
    assert s[|fields[0]|] == sep;
    SplitFieldsJoin(fields, sep);
    assert DropTrailingEmpty(fields) == DropTrailingEmpty(fields[..|fields| - 1]);
  }

  // ---------------------------------------------------------------------
  // Case-insensitive comparison

  /** Character.toUpperCase restricted to the ASCII letters. */
  function ToUpper(c: char): char {
    if 'a' <= c <= 'z' then (c as int - 32) as char else c
  }

  /** Character.toLowerCase restricted to the ASCII letters. */
  function ToLower(c: char): char {
    if 'A' <= c <= 'Z' then (c as int + 32) as char else c
  }

  /** The three-step per-character test of String.regionMatches(ignoreCase):
      identical, equal upper cases, or equal lower cases of the upper cases. */
  predicate CharsMatchIgnoreCase(a: char, b: char) {
    a == b || ToUpper(a) == ToUpper(b) || ToLower(ToUpper(a)) == ToLower(ToUpper(b))
  }

  /** String.equalsIgnoreCase: same length and matching position by position. */
  predicate EqualsIgnoreCase(a: string, b: string)
    decreases |a|
  {
    |a| == |b| && (|a| == 0 || (CharsMatchIgnoreCase(a[0], b[0]) && EqualsIgnoreCase(a[1..], b[1..])))
  }

  /** The whole string with every ASCII capital replaced by its small letter. */
  function LowerCase(s: string): (r: string)
    ensures |r| == |s|
    ensures forall k :: 0 <= k < |s| ==> r[k] == ToLower(s[k])
  {
    seq(|s|, k requires 0 <= k < |s| => ToLower(s[k]))
  }

  lemma CharsMatchIffLowered(a: char, b: char)
    ensures CharsMatchIgnoreCase(a, b) <==> ToLower(a) == ToLower(b)
  {
  }

  /** The character-wise test agrees with comparing the lower-cased strings,
      in both directions. */
  lemma {:induction false} EqualsIgnoreCaseIffSameLowerCase(a: string, b: string)
    ensures EqualsIgnoreCase(a, b) <==> LowerCase(a) == LowerCase(b)
    decreases |a|
  {
    if |a| == |b| && |a| > 0 {
      EqualsIgnoreCaseIffSameLowerCase(a[1..], b[1..]);
      CharsMatchIffLowered(a[0], b[0]);
      assert LowerCase(a) == [ToLower(a[0])] + LowerCase(a[1..]);
      assert LowerCase(b) == [ToLower(b[0])] + LowerCase(b[1..]);
    } else if |a| != |b| {
      assert |LowerCase(a)| != |LowerCase(b)|;
    }
  }

  /** Ignoring case is an equivalence: reflexive, symmetric and transitive. */
  lemma EqualsIgnoreCaseIsEquivalence(a: string, b: string, c: string)
    ensures EqualsIgnoreCase(a, a)
    ensures EqualsIgnoreCase(a, b) ==> EqualsIgnoreCase(b, a)
    ensures EqualsIgnoreCase(a, b) && EqualsIgnoreCase(b, c) ==> EqualsIgnoreCase(a, c)
  {
    EqualsIgnoreCaseIffSameLowerCase(a, a);
    EqualsIgnoreCaseIffSameLowerCase(a, b);
    EqualsIgnoreCaseIffSameLowerCase(b, a);
    EqualsIgnoreCaseIffSameLowerCase(b, c);
    EqualsIgnoreCaseIffSameLowerCase(a, c);
  }
}

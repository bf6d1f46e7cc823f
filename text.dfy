/**
 * The three Python string operations the report path relies on:
 * `str.strip()` with no argument, `str.split(",")` and `str.lower()`.
 */
module Text {

  /** The field separator of a report. */
  const SEP: char := ','

  /** Python's `str.isspace()` for one character: the characters that a
      bare `strip()` removes. */
  predicate IsSpace(c: char) {
    || c == ' '
    || ('\t' <= c <= '\r')             // \t \n \v \f \r
    || ('\U{1C}' <= c <= '\U{1F}')     // file, group, record, unit separators
    || c == '\U{85}' || c == '\U{A0}' || c == '\U{1680}'
    || ('\U{2000}' <= c <= '\U{200A}')
    || c == '\U{2028}' || c == '\U{2029}' || c == '\U{202F}'
    || c == '\U{205F}' || c == '\U{3000}'
  }

  /** Drops the leading whitespace: the result is the suffix of `s` that
      starts at its first non-space character. */
  function TrimLeft(s: string): (r: string)
    ensures |r| <= |s| && r == s[|s| - |r|..]
    ensures forall k :: 0 <= k < |s| - |r| ==> IsSpace(s[k])
    ensures r == [] || !IsSpace(r[0])
  {
    if s != [] && IsSpace(s[0]) then TrimLeft(s[1..]) else s
  }

  /** Drops the trailing whitespace: the result is the prefix of `s` that
      ends at its last non-space character. */
  function TrimRight(s: string): (r: string)
    ensures |r| <= |s| && r == s[..|r|]
    ensures forall k :: |r| <= k < |s| ==> IsSpace(s[k])
    ensures r == [] || !IsSpace(r[|r| - 1])
  {
    if s != [] && IsSpace(s[|s| - 1]) then TrimRight(s[..|s| - 1]) else s
  }

  /** Python's `s.strip()`. */
  function Strip(s: string): (r: string)
    ensures |r| <= |s|
    ensures r == [] || (!IsSpace(r[0]) && !IsSpace(r[|r| - 1]))
  {
    TrimRight(TrimLeft(s))
  }

  predicate AllSpace(s: string) {
    forall k :: 0 <= k < |s| ==> IsSpace(s[k])
  }

  /** A text without whitespace at either end. */
  predicate Stripped(t: string) {
    t == [] || (!IsSpace(t[0]) && !IsSpace(t[|t| - 1]))
  }

  lemma {:induction false} TrimLeftAt(s: string, i: nat)
    requires i <= |s| && AllSpace(s[..i]) && (i == |s| || !IsSpace(s[i]))
    ensures TrimLeft(s) == s[i..]
  {
    if i > 0 {
      assert s[..i][0] == s[0];
      var t := s[1..];
      assert t[..i - 1] == s[..i][1..];
      assert t[i - 1..] == s[i..];
      TrimLeftAt(t, i - 1);
    }
  }

  lemma {:induction false} TrimRightAt(s: string, i: nat)
    requires i <= |s| && AllSpace(s[i..]) && (i == 0 || !IsSpace(s[i - 1]))
    ensures TrimRight(s) == s[..i]
    decreases |s| - i
  {
    if i < |s| {
      assert s[i..][|s| - 1 - i] == s[|s| - 1];
      var t := s[..|s| - 1];
      assert t[i..] == s[i..][..|s| - 1 - i];
      assert t[..i] == s[..i];
      TrimRightAt(t, i);
    }
  }

  /** Strip removes exactly the whitespace around the text: whatever
      whitespace surrounds a text without whitespace at its ends, stripping
      gives back that text. */
  lemma StripSurrounded(pre: string, t: string, post: string)
    requires AllSpace(pre) && AllSpace(post) && Stripped(t)
    ensures Strip(pre + t + post) == t
  {
    var s := pre + t + post;
    if t == [] {
      assert s == pre + post;
      assert AllSpace(s[..|s|]) by {
        forall k | 0 <= k < |s| ensures IsSpace(s[k]) {
          if k < |pre| { assert s[k] == pre[k]; } else { assert s[k] == post[k - |pre|]; }
        }
      }
      assert s[..|s|] == s;
      TrimLeftAt(s, |s|);
      assert TrimLeft(s) == [];
    } else {
      assert s[..|pre|] == pre;
      assert s[|pre|] == t[0];
      TrimLeftAt(s, |pre|);
      var u := t + post;
      assert s[|pre|..] == u;
      assert u[|t|..] == post;
      assert u[..|t|] == t;
      TrimRightAt(u, |t|);
    }
  }

  /** Position of the first occurrence of `c` in `s`. */
  function IndexOf(s: string, c: char): (i: nat)
    requires c in s
    ensures i < |s| && s[i] == c && c !in s[..i]
  {
    if s[0] == c then 0 else 1 + IndexOf(s[1..], c)
  }

  /** The inverse of `Split`: the fields glued back with separators. */
  function Join(fields: seq<string>): (s: string)
    requires |fields| >= 1
  {
    if |fields| == 1 then fields[0] else fields[0] + [SEP] + Join(fields[1..])
  }

  /** Python's `s.split(",")`: never empty ("" gives [""]), keeps empty
      fields, and the fields hold no separator. */
  function Split(s: string): (fields: seq<string>)
    ensures |fields| >= 1
    ensures forall i :: 0 <= i < |fields| ==> SEP !in fields[i]
    ensures Join(fields) == s
    decreases |s|
  {
    if SEP !in s then [s]
    else
      var i := IndexOf(s, SEP);
      var rest := Split(s[i + 1..]);
      assert ([s[..i]] + rest)[1..] == rest;
      assert s == s[..i] + [SEP] + s[i + 1..];
      [s[..i]] + rest
  }

  /** A separator with none before it is the first one. */
  lemma IndexOfAt(s: string, j: nat)
    requires j < |s| && s[j] == SEP && SEP !in s[..j]
    ensures IndexOf(s, SEP) == j
  {
  }

  /** Splitting a text glued from separator-free fields gives the fields back. */
  lemma {:induction false} SplitJoin(fields: seq<string>)
    requires |fields| >= 1
    requires forall i :: 0 <= i < |fields| ==> SEP !in fields[i]
    ensures Split(Join(fields)) == fields
  {
    if |fields| > 1 {
      var s := Join(fields);
      var f := fields[0];
      var tail := fields[1..];
      assert s == f + [SEP] + Join(tail);
      assert IndexOf(s, SEP) == |f| by {
        assert s[|f|] == SEP;
        assert s[..|f|] == f;
        IndexOfAt(s, |f|);
      }
      assert s[|f| + 1..] == Join(tail);
      assert Split(s) == [f] + Split(Join(tail)) by {
        assert s[..|f|] == f;
      }
      SplitJoin(tail);
      assert fields == [f] + tail;
    }
  }

  /** `str.lower()` on one character. Only ASCII letters are mapped; no
      other character lower-cases to a character of "v4" or "v6". */
  function LowerChar(c: char): char {
    if 'A' <= c <= 'Z' then (c as int + 32) as char else c
  }

  /** Python's `s.lower()`, character by character. */
  function Lower(s: string): (r: string)
    ensures |r| == |s|
    ensures forall i :: 0 <= i < |s| ==> !('A' <= r[i] <= 'Z')
    ensures forall i :: 0 <= i < |s| ==>
      if 'A' <= s[i] <= 'Z' then r[i] as int == s[i] as int + 32 else r[i] == s[i]
  {
    seq(|s|, i requires 0 <= i < |s| => LowerChar(s[i]))
  }

  /** Lower-casing gives "v4" exactly for "v4" and "V4". */
  lemma LowerIsV4(s: string)
    ensures Lower(s) == "v4" <==> s == "v4" || s == "V4"
  {
    if Lower(s) == "v4" {
      assert |s| == 2;
      assert LowerChar(s[0]) == 'v' && LowerChar(s[1]) == '4';
      assert s == [s[0], s[1]];
    }
  }

  /** Lower-casing gives "v6" exactly for "v6" and "V6". */
  lemma LowerIsV6(s: string)
    ensures Lower(s) == "v6" <==> s == "v6" || s == "V6"
  {
    if Lower(s) == "v6" {
      assert |s| == 2;
      assert LowerChar(s[0]) == 'v' && LowerChar(s[1]) == '6';
      assert s == [s[0], s[1]];
    }
  }

  /** Lower-casing twice is lower-casing once. */
  lemma LowerIdempotent(s: string)
    ensures Lower(Lower(s)) == Lower(s)
  {
  }
}

/** The few JavaScript string operations the core relies on:
    `toLowerCase`, `includes`, `split` with a string separator, the `\d`
    test of a regular expression, and `replace` with a string pattern. */
module Text {

  /** `toLowerCase` on the ASCII letters; every other character is kept. */
  function LowerChar(c: char): char
  {
    if 'A' <= c <= 'Z' then (c as int - 'A' as int + 'a' as int) as char else c
  }

  /** `s.toLowerCase()`: no upper-case letter remains, each upper-case
      letter becomes its lower-case partner 32 code points on, and every
      other character stays where it was. */
  function Lower(s: string): (r: string)
    ensures |r| == |s|
    ensures forall i :: 0 <= i < |r| ==> !('A' <= r[i] <= 'Z')
    ensures forall i :: 0 <= i < |s| && 'A' <= s[i] <= 'Z' ==> r[i] as int == s[i] as int + 32
    ensures forall i :: 0 <= i < |s| && !('A' <= s[i] <= 'Z') ==> r[i] == s[i]
  {
    seq(|s|, i requires 0 <= i < |s| => LowerChar(s[i]))
  }

  /** Lower-casing a lower-cased string changes nothing. */
  lemma LowerIdempotent(s: string)
    ensures Lower(Lower(s)) == Lower(s)
  {
    var r := Lower(s);
    assert forall i :: 0 <= i < |r| ==> Lower(r)[i] == r[i];
  }

  /** The case-insensitive search sees only the lower-cased text and term:
      two terms that differ only in case find the same strings, and so do two
      texts that differ only in case. */
  lemma {:induction false} IncludesIgnoresCase(s: string, s': string, term: string, term': string)
    requires Lower(s) == Lower(s') && Lower(term) == Lower(term')
    ensures IncludesIgnoringCase(s, term) <==> IncludesIgnoringCase(s', term')
  {
  }

  /** In particular a term and its lower-cased form find the same strings. */
  lemma {:induction false} IncludesLowerTerm(s: string, term: string)
    ensures IncludesIgnoringCase(s, term) <==> IncludesIgnoringCase(s, Lower(term))
  {
    LowerIdempotent(term);
    IncludesIgnoresCase(s, s, term, Lower(term));
  }

  /** `sub` occurs in `s` starting at index `k`. */
  predicate OccursAt(s: string, sub: string, k: int)
  {
    0 <= k && k + |sub| <= |s| && s[k..k + |sub|] == sub
  }

  /** `s.includes(sub)`. */
  predicate Contains(s: string, sub: string)
  {
    exists k :: 0 <= k <= |s| - |sub| && OccursAt(s, sub, k)
  }

  /** `s.toLowerCase().includes(term.toLowerCase())`. */
  predicate IncludesIgnoringCase(s: string, term: string)
  {
    Contains(Lower(s), Lower(term))
  }

  /** Every string includes the empty string, whatever its case. */
  lemma IncludesEmpty(s: string)
    ensures IncludesIgnoringCase(s, "")
  {
    assert OccursAt(Lower(s), Lower(""), 0);
  }

  /** The `\d` class of a JavaScript regular expression: ASCII digits only. */
  predicate IsDigit(c: char)
  {
    '0' <= c <= '9'
  }

  /** `s.match(/\d+/)` is non-null. */
  predicate HasDigit(s: string)
  {
    exists i :: 0 <= i < |s| && IsDigit(s[i])
  }

  /** Inverse of `Split`: the parts with the separator between each two. */
  function Join(parts: seq<string>, sep: string): string
    requires |parts| >= 1
    decreases |parts|
  {
    if |parts| == 1 then parts[0] else parts[0] + sep + Join(parts[1..], sep)
  }

  /** The third part of a join starts right after the first two parts and
      their separators. */
  lemma JoinContainsThirdPart(parts: seq<string>, sep: string)
    requires |parts| > 2
    ensures OccursAt(Join(parts, sep), parts[2], |parts[0]| + |sep| + |parts[1]| + |sep|)
    ensures Contains(Join(parts, sep), parts[2])
  {
    var tail := Join(parts[2..], sep);
    assert parts[1..][0] == parts[1] && parts[1..][1..] == parts[2..];
    assert tail[..|parts[2]|] == parts[2] by {
      if |parts| > 3 {
        assert parts[2..][0] == parts[2];
      }
    }
    var joined := parts[0] + sep + parts[1] + sep + tail;
    assert Join(parts, sep) == joined;
    var o := |parts[0]| + |sep| + |parts[1]| + |sep|;
    assert joined[o..o + |parts[2]|] == tail[..|parts[2]|];
    assert OccursAt(Join(parts, sep), parts[2], o);
  }

  /** `s.split(sep)` for a non-empty string separator: scanning left to
      right, every occurrence of `sep` not overlapping an earlier one ends a
      part. The parts joined by `sep` give back `s`. */
  function Split(s: string, sep: string): (parts: seq<string>)
    requires |sep| > 0
    ensures |parts| >= 1
    ensures Join(parts, sep) == s
    decreases |s|
  {
    if |s| < |sep| then [s]
    else if s[..|sep|] == sep then
      var rest := Split(s[|sep|..], sep);
      assert Join([""] + rest, sep) == "" + sep + Join(rest, sep);
      [""] + rest
    else
      var rest := Split(s[1..], sep);
      var parts := [[s[0]] + rest[0]] + rest[1..];
      assert Join(parts, sep) == s by {
        if |rest| > 1 {
          assert parts[1..] == rest[1..];
          assert Join(rest, sep) == rest[0] + sep + Join(rest[1..], sep);
        }
      }
      parts
  }

  /** Splitting a string with no occurrence of the separator gives the
      string itself as the only part. */
  lemma {:induction false} SplitWithoutSeparator(s: string, sep: string)
    requires |sep| > 0
    requires forall k :: 0 <= k < |s| ==> !OccursAt(s, sep, k)
    ensures Split(s, sep) == [s]
    decreases |s|
  {
    if |s| >= |sep| {
      assert !OccursAt(s, sep, 0);
      assert s[..|sep|] != sep;
      forall k | 0 <= k < |s[1..]|
        ensures !OccursAt(s[1..], sep, k)
      {
        assert !OccursAt(s, sep, k + 1);
      }
      SplitWithoutSeparator(s[1..], sep);
      assert [s[0]] + s[1..] == s;
    }
  }

  /** When the separator first occurs right after `p`, `p` is the first part
      and the rest is split on its own. */
  lemma {:induction false} SplitAfterFirstPart(p: string, sep: string, rest: string)
    requires |sep| > 0
    requires forall k :: 0 <= k < |p| ==> !OccursAt(p + sep + rest, sep, k)
    ensures Split(p + sep + rest, sep) == [p] + Split(rest, sep)
    decreases |p|
  {
    var s := p + sep + rest;
    if p == [] {
      assert s == sep + rest;
      assert s[..|sep|] == sep;
      assert s[|sep|..] == rest;
    } else {
      assert !OccursAt(s, sep, 0);
      assert s[..|sep|] != sep;
      var p' := p[1..];
      assert s[1..] == p' + sep + rest;
      forall k | 0 <= k < |p'|
        ensures !OccursAt(p' + sep + rest, sep, k)
      {
        assert !OccursAt(s, sep, k + 1);
      }
      SplitAfterFirstPart(p', sep, rest);
      assert [s[0]] + p' == p;
    }
  }

  /** Number of occurrences of `c` in `s`. */
  function CountChar(s: string, c: char): nat
  {
    if s == [] then 0 else (if s[0] == c then 1 else 0) + CountChar(s[1..], c)
  }

  /** Splitting on a one-character separator gives one part more than the
      separator has occurrences. */
  lemma {:induction false} SplitOnCharCount(s: string, c: char)
    ensures |Split(s, [c])| == CountChar(s, c) + 1
    decreases |s|
  {
    if |s| >= 1 {
      SplitOnCharCount(s[1..], c);
      assert s[..1] == [s[0]];
    }
  }

  /** Index of the first space of `s`, or `|s|` when there is none. */
  function FirstSpace(s: string): (k: nat)
    ensures k <= |s|
    ensures k < |s| ==> s[k] == ' '
    ensures forall j :: 0 <= j < k ==> s[j] != ' '
    decreases |s|
  {
    if s == [] || s[0] == ' ' then 0 else 1 + FirstSpace(s[1..])
  }

  /** `s.replace(' ', '+')`: a string pattern replaces only the first match,
      so the first space becomes '+' and every other character, later spaces
      included, is kept; without a space the string is unchanged. */
  function ReplaceFirstSpace(s: string): (r: string)
    ensures |r| == |s|
    ensures forall i :: 0 <= i < |s| ==> r[i] == if i == FirstSpace(s) then '+' else s[i]
    ensures (forall i :: 0 <= i < |s| ==> s[i] != ' ') ==> r == s
    decreases |s|
  {
    if s == [] then []
    else if s[0] == ' ' then ['+'] + s[1..]
    else [s[0]] + ReplaceFirstSpace(s[1..])
  }
}

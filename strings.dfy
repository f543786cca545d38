/** The JavaScript string operations the adapters and the file repository use:
    `split` on a one-character separator, `join`, `pop` of the last part,
    `includes`, the character class `[a-z0-9]` with the `i` flag, and
    `length`, which counts UTF-16 code units. */
module Strings {

  /** `s.split(sep)` for a one-character separator: never empty, and no part
      holds the separator. */
  function Split(s: string, sep: char): (parts: seq<string>)
    ensures |parts| >= 1
    ensures forall i :: 0 <= i < |parts| ==> sep !in parts[i]
    decreases |s|
  {
    if s == [] then [""]
    else
      var rest := Split(s[1..], sep);
      if s[0] == sep then [""] + rest
      else [[s[0]] + rest[0]] + rest[1..]
  }

  /** `parts.join(sep)`; the join of no parts is the empty string. */
  function Join(parts: seq<string>, sep: string): string
  {
    if |parts| == 0 then ""
    else if |parts| == 1 then parts[0]
    else parts[0] + sep + Join(parts[1..], sep)
  }

  /** What `pop()` returns from a non-empty array. */
  function Last<T>(xs: seq<T>): T
    requires |xs| > 0
  {
    xs[|xs| - 1]
  }

  /** What is left of a non-empty array after `pop()`. */
  function Init<T>(xs: seq<T>): seq<T>
    requires |xs| > 0
  {
    xs[..|xs| - 1]
  }

  /** `s.split(sep).pop()`: the text after the last separator, or all of `s`. */
  function LastSegment(s: string, sep: char): (r: string)
    ensures sep !in r
    ensures |r| <= |s|
  {
    SplitLength(s, sep);
    Last(Split(s, sep))
  }

  /** No part of a split is longer than the input. */
  lemma {:induction false} SplitLength(s: string, sep: char)
    ensures forall i :: 0 <= i < |Split(s, sep)| ==> |Split(s, sep)[i]| <= |s|
    decreases |s|
  {
    if s != [] {
      SplitLength(s[1..], sep);
    }
  }

  /** `s.includes(sub)`. */
  predicate Contains(s: string, sub: string)
    decreases |s|
  {
    (|sub| <= |s| && s[..|sub|] == sub) || (s != [] && Contains(s[1..], sub))
  }

  /** A string with no separator splits into itself alone. */
  lemma {:induction false} SplitNoSeparator(s: string, sep: char)
    requires sep !in s
    ensures Split(s, sep) == [s]
    decreases |s|
  {
    if s != [] {
      SplitNoSeparator(s[1..], sep);
      assert [s[0]] + s[1..] == s;
    }
  }

  /** Splitting around one separator splits each side on its own. */
  lemma {:induction false} SplitAround(a: string, b: string, sep: char)
    ensures Split(a + [sep] + b, sep) == Split(a, sep) + Split(b, sep)
    decreases |a|
  {
    var s := a + [sep] + b;
    if a == [] {
      assert s[1..] == b;
    } else {
      assert s[0] == a[0];
      assert s[1..] == a[1..] + [sep] + b;
      SplitAround(a[1..], b, sep);
    }
  }

  /** Round trip one way: joining the parts of a split gives back the string. */
  lemma {:induction false} JoinSplit(s: string, sep: char)
    ensures Join(Split(s, sep), [sep]) == s
    decreases |s|
  {
    if s != [] {
      var rest := Split(s[1..], sep);
      JoinSplit(s[1..], sep);
      if s[0] != sep && |rest| > 1 {
        assert Join(rest, [sep]) == rest[0] + [sep] + Join(rest[1..], [sep]);
      }
    }
  }

  /** Round trip the other way: parts without the separator split back out of
      their join. */
  lemma {:induction false} SplitJoin(parts: seq<string>, sep: char)
    requires |parts| >= 1
    requires forall i :: 0 <= i < |parts| ==> sep !in parts[i]
    ensures Split(Join(parts, [sep]), sep) == parts
    decreases |parts|
  {
    SplitNoSeparator(parts[0], sep);
    if |parts| > 1 {
      SplitJoin(parts[1..], sep);
      SplitAround(parts[0], Join(parts[1..], [sep]), sep);
    }
  }

  /** Joining one more part appends the separator and that part. */
  lemma {:induction false} JoinSnoc(parts: seq<string>, last: string, sep: string)
    requires |parts| >= 1
    ensures Join(parts + [last], sep) == Join(parts, sep) + sep + last
    decreases |parts|
  {
    var all := parts + [last];
    if |parts| == 1 {
      assert all[1..] == [last];
    } else {
      assert all[1..] == parts[1..] + [last];
      JoinSnoc(parts[1..], last, sep);
    }
  }

  /** Replacing the last part of a split path: the other parts stay, and the
      new last part is the one put in. */
  lemma ReplaceLastSegment(s: string, sep: char, name: string)
    requires sep !in name
    ensures var parts := Split(Join(Init(Split(s, sep)) + [name], [sep]), sep);
            |parts| >= 1 && Init(parts) == Init(Split(s, sep)) && Last(parts) == name
  {
    var kept := Init(Split(s, sep)) + [name];
    SplitJoin(kept, sep);
  }

  /** Whatever comes before it, the text after the last separator is the last
      segment. */
  lemma LastSegmentAfter(prefix: string, sep: char, tail: string)
    requires sep !in tail
    ensures LastSegment(prefix + [sep] + tail, sep) == tail
  {
    SplitAround(prefix, tail, sep);
    SplitNoSeparator(tail, sep);
  }

  /** A character of the class `[a-z0-9]` under the case-insensitive flag. */
  predicate IsAlphanumeric(c: char)
  {
    ('a' <= c <= 'z') || ('A' <= c <= 'Z') || ('0' <= c <= '9')
  }

  /** The specification of tag sanitising: the alphanumeric characters, in order. */
  function KeepAlphanumeric(s: string): (r: string)
    ensures forall i :: 0 <= i < |r| ==> IsAlphanumeric(r[i])
    ensures |r| <= |s|
  {
    if s == [] then ""
    else (if IsAlphanumeric(s[0]) then [s[0]] else "") + KeepAlphanumeric(s[1..])
  }

  /** Filtering distributes over concatenation. */
  lemma {:induction false} KeepAlphanumericAppend(a: string, b: string)
    ensures KeepAlphanumeric(a + b) == KeepAlphanumeric(a) + KeepAlphanumeric(b)
    decreases |a|
  {
    if a == [] {
      assert a + b == b;
    } else {
      assert (a + b)[1..] == a[1..] + b;
      KeepAlphanumericAppend(a[1..], b);
    }
  }

  /** A string of alphanumeric characters is kept whole. */
  lemma {:induction false} KeepAlphanumericAll(s: string)
    requires forall i :: 0 <= i < |s| ==> IsAlphanumeric(s[i])
    ensures KeepAlphanumeric(s) == s
    decreases |s|
  {
    if s != [] {
      KeepAlphanumericAll(s[1..]);
      assert [s[0]] + s[1..] == s;
    }
  }

  /** One other character between two alphanumeric strings is dropped. */
  lemma KeepAlphanumericAround(a: string, c: char, b: string)
    requires forall i :: 0 <= i < |a| ==> IsAlphanumeric(a[i])
    requires forall i :: 0 <= i < |b| ==> IsAlphanumeric(b[i])
    requires !IsAlphanumeric(c)
    ensures KeepAlphanumeric(a + [c] + b) == a + b
  {
    var ac := a + [c];
    KeepAlphanumericAll(a);
    KeepAlphanumericAll(b);
    assert [c][1..] == [];
    assert KeepAlphanumeric([c]) == "";
    KeepAlphanumericAppend(a, [c]);
    assert KeepAlphanumeric(ac) == a;
    KeepAlphanumericAppend(ac, b);
  }

  /** `s.replace(/[^a-z0-9]/gi, ' ')`. */
  function BlankNonAlphanumeric(s: string): (r: string)
    ensures |r| == |s|
  {
    if s == [] then ""
    else [if IsAlphanumeric(s[0]) then s[0] else ' '] + BlankNonAlphanumeric(s[1..])
  }

  /** `s` with every occurrence of `sep` taken out. */
  function RemoveAll(s: string, sep: char): string
  {
    if s == [] then ""
    else (if s[0] == sep then "" else [s[0]]) + RemoveAll(s[1..], sep)
  }

  /** `s.split(sep).join('')` removes every separator, and nothing else. */
  lemma {:induction false} JoinSplitEmpty(s: string, sep: char)
    ensures Join(Split(s, sep), "") == RemoveAll(s, sep)
    decreases |s|
  {
    if s != [] {
      var rest := Split(s[1..], sep);
      JoinSplitEmpty(s[1..], sep);
      if s[0] != sep && |rest| > 1 {
        assert Join(rest, "") == rest[0] + Join(rest[1..], "");
      }
    }
  }

  /** Blanking the non-alphanumeric characters and then removing the blanks
      keeps exactly the alphanumeric ones. */
  lemma {:induction false} RemoveBlanks(s: string)
    ensures RemoveAll(BlankNonAlphanumeric(s), ' ') == KeepAlphanumeric(s)
  {
    if s != [] {
      RemoveBlanks(s[1..]);
      assert BlankNonAlphanumeric(s)[1..] == BlankNonAlphanumeric(s[1..]);
    }
  }

  /** The UTF-16 code units of one character: a surrogate pair (two units)
      for a character outside the Basic Multilingual Plane, one unit otherwise. */
  function Utf16Units(c: char): nat
  {
    if c as int >= 0x10000 then 2 else 1
  }

  /** JavaScript's `s.length`: the number of UTF-16 code units of `s`, between
      the number of characters and twice that. */
  function Utf16Length(s: string): (n: nat)
    ensures |s| <= n <= 2 * |s|
  {
    if s == [] then 0 else Utf16Units(s[0]) + Utf16Length(s[1..])
  }

  /** The length counts characters exactly when every character lies in the
      Basic Multilingual Plane. */
  lemma {:induction false} Utf16LengthBmp(s: string)
    ensures Utf16Length(s) == |s| <==> forall i :: 0 <= i < |s| ==> s[i] as int < 0x10000
    decreases |s|
  {
    if s != [] {
      Utf16LengthBmp(s[1..]);
      assert forall i :: 0 < i < |s| ==> s[i] == s[1..][i - 1];
    }
  }
}

/**
 * The PHP string functions the rules rely on: `strpos`, `str_contains`,
 * `str_starts_with`, `explode`, `implode`, `strtolower` and `lcfirst`.
 * Strings are sequences of characters; the case functions only touch the
 * ASCII letters, as PHP 8.2 and later do (PHP 8.0 and 8.1 only under the
 * default "C" locale).
 */
module Strings {
  import opened Wrappers

  /** `needle` occurs in `s` starting at index `i`. */
  predicate OccursAt(s: string, needle: string, i: nat) {
    i + |needle| <= |s| && s[i..i + |needle|] == needle
  }

  /** The first index at or after `from` where `needle` occurs in `s`. */
  function IndexOfFrom(s: string, needle: string, from: nat): (r: Option<nat>)
    ensures r.Some? ==> from <= r.value && OccursAt(s, needle, r.value)
    ensures r.Some? ==> forall j: nat :: from <= j < r.value ==> !OccursAt(s, needle, j)
    ensures r.None? ==> forall j: nat :: from <= j ==> !OccursAt(s, needle, j)
    decreases |s| - from
  {
    if from + |needle| > |s| then None
    else if s[from..from + |needle|] == needle then Some(from)
    else IndexOfFrom(s, needle, from + 1)
  }

  /** PHP's `strpos($s, $needle)`, with `None` for `false`. */
  function IndexOf(s: string, needle: string): (r: Option<nat>)
    ensures r.Some? ==> OccursAt(s, needle, r.value)
    ensures r.Some? ==> forall j: nat :: j < r.value ==> !OccursAt(s, needle, j)
    ensures r.None? <==> forall j: nat :: !OccursAt(s, needle, j)
  {
    IndexOfFrom(s, needle, 0)
  }

  /** `strpos($s, $needle) !== false`, the layer filter of every rule. */
  predicate Contains(s: string, needle: string)
  {
    IndexOf(s, needle).Some?
  }

  lemma {:induction false} ContainsIff(s: string, needle: string)
    ensures Contains(s, needle) <==> exists i: nat :: OccursAt(s, needle, i)
  {
    if Contains(s, needle) {
      assert OccursAt(s, needle, IndexOf(s, needle).value);
    }
  }

  /** A string contains whatever sits between a prefix and a suffix of it. */
  lemma {:induction false} ContainsMiddle(pre: string, s: string, post: string)
    ensures Contains(pre + s + post, s)
  {
    var t := pre + s + post;
    assert t[|pre|..|pre| + |s|] == s;
    assert OccursAt(t, s, |pre|);
  }

  lemma {:induction false} ContainsSelf(s: string)
    ensures Contains(s, s)
  {
    assert s[0..|s|] == s;
    assert OccursAt(s, s, 0);
  }

  /** What a string contains, any longer string ending in it contains too. */
  lemma {:induction false} ContainsPrepend(pre: string, s: string, needle: string)
    requires Contains(s, needle)
    ensures Contains(pre + s, needle)
  {
    var i := IndexOf(s, needle).value;
    var t := pre + s;
    assert t[|pre| + i..|pre| + i + |needle|] == s[i..i + |needle|];
    assert OccursAt(t, needle, |pre| + i);
  }

  /** What a string contains, any longer string starting with it contains too. */
  lemma {:induction false} ContainsAppend(s: string, post: string, needle: string)
    requires Contains(s, needle)
    ensures Contains(s + post, needle)
  {
    var i := IndexOf(s, needle).value;
    var t := s + post;
    assert t[i..i + |needle|] == s[i..i + |needle|];
    assert OccursAt(t, needle, i);
  }

  /** PHP's `str_starts_with`. */
  predicate StartsWith(s: string, prefix: string) {
    prefix <= s
  }

  /** PHP's `implode($sep, $parts)`. */
  function Join(parts: seq<string>, sep: string): string
  {
    if |parts| == 0 then ""
    else if |parts| == 1 then parts[0]
    else parts[0] + sep + Join(parts[1..], sep)
  }

  /**
   * PHP's `explode($sep, $s)` for a one-character separator: the pieces
   * between separators, at least one, none containing the separator,
   * and joining them back gives `s`.
   */
  function Split(s: string, sep: char): (parts: seq<string>)
    ensures |parts| >= 1
    ensures forall i :: 0 <= i < |parts| ==> sep !in parts[i]
    ensures Join(parts, [sep]) == s
    decreases |s|
  {
    match IndexOf(s, [sep])
    case None =>
      NoSeparator(s, sep);
      [s]
    case Some(i) =>
      var rest := Split(s[i + 1..], sep);
      FirstSeparator(s, sep, i);
      SplitAtFirst(s, sep, i, rest);
      [s[..i]] + rest
  }

  /** Without an occurrence of the separator, the string does not hold it. */
  lemma {:induction false} NoSeparator(s: string, sep: char)
    requires IndexOf(s, [sep]).None?
    ensures sep !in s
  {
    forall k | 0 <= k < |s| ensures s[k] != sep {
      assert s[k..k + 1] == [s[k]];
      assert !OccursAt(s, [sep], k);
    }
  }

  /** Joining the text before a separator with the pieces of the text after it gives the whole text back. */
  lemma {:induction false} SplitAtFirst(s: string, sep: char, i: nat, rest: seq<string>)
    requires i < |s| && s[i] == sep
    requires |rest| >= 1 && Join(rest, [sep]) == s[i + 1..]
    ensures Join([s[..i]] + rest, [sep]) == s
  {
    JoinCons(s[..i], rest, [sep]);
    assert s[..i + 1] == s[..i] + [sep];
    assert s == s[..i + 1] + s[i + 1..];
  }

  lemma {:induction false} FirstSeparator(s: string, sep: char, i: nat)
    requires IndexOf(s, [sep]) == Some(i)
    ensures i < |s| && s[i] == sep
    ensures sep !in s[..i]
  {
    assert s[i] == sep by { assert OccursAt(s, [sep], i); assert s[i..i + 1] == [sep]; }
    forall k | 0 <= k < i ensures s[k] != sep {
      assert !OccursAt(s, [sep], k);
      assert s[k..k + 1] == [s[k]];
    }
  }

  lemma {:induction false} JoinCons(head: string, rest: seq<string>, sep: string)
    requires |rest| >= 1
    ensures Join([head] + rest, sep) == head + sep + Join(rest, sep)
  {
    assert ([head] + rest)[1..] == rest;
  }

  /** Splitting a join of separator-free pieces gives the pieces back. */
  lemma {:induction false} SplitJoin(parts: seq<string>, sep: char)
    requires |parts| >= 1
    requires forall i :: 0 <= i < |parts| ==> sep !in parts[i]
    ensures Split(Join(parts, [sep]), sep) == parts
    decreases |parts|
  {
    var s := Join(parts, [sep]);
    var p := parts[0];
    if |parts| == 1 {
      assert s == p;
    } else {
      var rest := Join(parts[1..], [sep]);
      assert s == p + [sep] + rest;
      assert OccursAt(s, [sep], |p|) by { assert s[|p|..|p| + 1] == [sep]; }
      forall k: nat | k < |p| ensures !OccursAt(s, [sep], k) {
        assert s[k..k + 1] == [p[k]];
      }
      assert IndexOf(s, [sep]) == Some(|p|);
      assert s[..|p|] == p;
      assert s[|p| + 1..] == rest;
      SplitJoin(parts[1..], sep);
    }
  }

  predicate IsAsciiUpper(c: char) {
    'A' <= c <= 'Z'
  }

  /** The lower-case form of an ASCII letter; every other character is kept. */
  function LowerChar(c: char): (r: char)
    ensures !IsAsciiUpper(r)
    ensures IsAsciiUpper(c) ==> r as int == c as int + 32
    ensures !IsAsciiUpper(c) ==> r == c
  {
    if IsAsciiUpper(c) then (c as int + 32) as char else c
  }

  /** `strtolower` (locale-independent since PHP 8.2): every ASCII capital becomes lower-case, nothing else changes. */
  function ToLower(s: string): (r: string)
    ensures |r| == |s|
    ensures forall i :: 0 <= i < |s| ==> r[i] == LowerChar(s[i])
    ensures forall i :: 0 <= i < |r| ==> !IsAsciiUpper(r[i])
  {
    seq(|s|, i requires 0 <= i < |s| => LowerChar(s[i]))
  }

  /** PHP 8's `lcfirst`: only the first character is lower-cased. */
  function LcFirst(s: string): (r: string)
    ensures |r| == |s|
    ensures |s| > 0 ==> r[0] == LowerChar(s[0]) && r[1..] == s[1..]
  {
    if |s| == 0 then s else [LowerChar(s[0])] + s[1..]
  }
}

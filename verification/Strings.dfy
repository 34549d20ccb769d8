/** Strings as sequences of code points (splitting, joining, decimal numbers), and sequences against their multisets. */
module Strings {
  datatype Option<+T> = None | Some(value: T)

  const ESC: char := '\U{1B}'
  const BEL: char := '\U{07}'
  const DEL: char := '\U{7F}'
  const BACKSPACE: char := '\U{08}'

  function Concat(parts: seq<string>): string {
    if parts == [] then [] else parts[0] + Concat(parts[1..])
  }

  function Join(parts: seq<string>, sep: string): string {
    if parts == [] then []
    else if |parts| == 1 then parts[0]
    else parts[0] + sep + Join(parts[1..], sep)
  }

  function Split(s: string, sep: char): (parts: seq<string>)
    ensures |parts| >= 1
    ensures Join(parts, [sep]) == s
    ensures forall i :: 0 <= i < |parts| ==> sep !in parts[i]
  {
    if s == [] then [[]]
    else
      var rest := Split(s[1..], sep);
      if s[0] == sep then [[]] + rest else [[s[0]] + rest[0]] + rest[1..]
  }

  function TrimRight(s: string, c: char): string {
    if s != [] && s[|s| - 1] == c then TrimRight(s[..|s| - 1], c) else s
  }

  predicate Digit(c: char) { '0' <= c <= '9' }

  predicate AllDigits(s: string) {
    s != [] && forall k :: 0 <= k < |s| ==> Digit(s[k])
  }

  function Value(s: string): nat
    requires forall k :: 0 <= k < |s| ==> Digit(s[k])
  {
    if s == [] then 0 else assert Digit(s[|s| - 1]); 10 * Value(s[..|s| - 1]) + (s[|s| - 1] as int - '0' as int)
  }

  /** A natural number in decimal. */
  function Decimal(n: nat): (s: string)
    ensures AllDigits(s) && Value(s) == n
  {
    if n < 10 then [('0' as int + n) as char] else Decimal(n / 10) + [('0' as int + n % 10) as char]
  }

  /** How many UTF-16 units the host counts in `s`. */
  function Utf16Length(s: string): nat {
    if s == [] then 0 else (if s[0] as int > 0xFFFF then 2 else 1) + Utf16Length(s[1..])
  }

  lemma {:induction false} Utf16LengthOfConcat(a: string, b: string)
    ensures Utf16Length(a + b) == Utf16Length(a) + Utf16Length(b)
  {
    if a == [] {
      assert a + b == b;
    } else {
      assert (a + b)[1..] == a[1..] + b;
      Utf16LengthOfConcat(a[1..], b);
    }
  }

  lemma {:induction false} SplitAtSeparator(front: string, back: string, sep: char)
    requires sep !in front
    ensures Split(front + [sep] + back, sep) == [front] + Split(back, sep)
  {
    var s := front + [sep] + back;
    if front == [] {
      assert s[1..] == back;
    } else {
      assert s[1..] == front[1..] + [sep] + back;
      SplitAtSeparator(front[1..], back, sep);
      assert ([front[1..]] + Split(back, sep))[1..] == Split(back, sep);
      assert [s[0]] + front[1..] == front;
    }
  }

  lemma {:induction false} SplitWithoutSeparator(s: string, sep: char)
    requires sep !in s
    ensures Split(s, sep) == [s]
  {
    if s != [] { SplitWithoutSeparator(s[1..], sep); }
  }

  /** Splitting undoes joining when no part holds the separator. */
  lemma {:induction false} SplitOfJoin(parts: seq<string>, sep: char)
    requires parts != [] && forall i :: 0 <= i < |parts| ==> sep !in parts[i]
    ensures Split(Join(parts, [sep]), sep) == parts
  {
    if |parts| == 1 {
      SplitWithoutSeparator(parts[0], sep);
    } else {
      SplitAtSeparator(parts[0], Join(parts[1..], [sep]), sep);
      SplitOfJoin(parts[1..], sep);
    }
  }

  /** A sequence as a multiset, one element taken out. */
  lemma WithoutOne<T>(s: seq<T>, k: nat)
    requires k < |s|
    ensures multiset(s) == multiset(s[..k] + s[k + 1..]) + multiset{s[k]}
  {
    assert s == s[..k] + [s[k]] + s[k + 1..];
  }

  /** Sequences with the same elements and one of them taken out of both. */
  lemma WithoutOneOfBoth<T>(s: seq<T>, j: nat, t: seq<T>, k: nat)
    requires multiset(s) == multiset(t) && j < |s| && k < |t| && s[j] == t[k]
    ensures multiset(s[..j] + s[j + 1..]) == multiset(t[..k] + t[k + 1..])
  {
    WithoutOne(s, j);
    WithoutOne(t, k);
    var a, b := multiset(s[..j] + s[j + 1..]), multiset(t[..k] + t[k + 1..]);
    var x := s[j];
    assert a + multiset{x} - multiset{x} == a && b + multiset{x} - multiset{x} == b;
  }

  lemma SameSize<T>(s: seq<T>, t: seq<T>)
    requires multiset(s) == multiset(t)
    ensures |s| == |t|
  {
    assert |multiset(s)| == |s| && |multiset(t)| == |t|;
  }

  lemma SameTails<T>(s: seq<T>, t: seq<T>)
    requires multiset(s) == multiset(t) && s != [] && t != [] && s[0] == t[0]
    ensures multiset(s[1..]) == multiset(t[1..]) && (s[1..] == t[1..] ==> s == t)
  {
    WithoutOneOfBoth(s, 0, t, 0);
    assert s[..0] + s[1..] == s[1..] && t[..0] + t[1..] == t[1..];
    assert s == [s[0]] + s[1..] && t == [t[0]] + t[1..];
  }
}

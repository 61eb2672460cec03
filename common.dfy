/** Small shared vocabulary: an optional value, string concatenation and the
    enumeration of a map's keys in some iteration order. */
module Common {

  /** A value that may be absent, standing for `undefined`/`null` results. */
  datatype Option<+T> = None | Some(value: T)

  /** The UTF-16 code units a character takes: two for a code point outside
      the Basic Multilingual Plane (a surrogate pair), one otherwise. */
  function Utf16Units(c: char): nat
  {
    if c as int >= 0x1_0000 then 2 else 1
  }

  /** JavaScript's `length` of a string: the number of its UTF-16 code units. */
  function Utf16Length(s: string): (n: nat)
    ensures |s| <= n <= 2 * |s|
  {
    if |s| == 0 then 0 else Utf16Length(s[..|s| - 1]) + Utf16Units(s[|s| - 1])
  }

  /** A one-character string is as long as its character's code units. */
  lemma Utf16LengthOfChar(c: char)
    ensures Utf16Length([c]) == Utf16Units(c)
  {
    assert [c][..0] == "";
  }

  /** The length of a concatenation is the sum of the lengths. */
  lemma {:induction false} Utf16LengthAppend(a: string, b: string)
    ensures Utf16Length(a + b) == Utf16Length(a) + Utf16Length(b)
    decreases |b|
  {
    if |b| == 0 {
      assert a + b == a;
    } else {
      var b' := b[..|b| - 1];
      assert (a + b)[..|a + b| - 1] == a + b';
      assert (a + b)[|a + b| - 1] == b[|b| - 1];
      Utf16LengthAppend(a, b');
    }
  }

  /** The length counts characters exactly when every character lies in the
      Basic Multilingual Plane. */
  lemma {:induction false} Utf16LengthOfBmp(s: string)
    ensures Utf16Length(s) == |s| <==> forall i | 0 <= i < |s| :: s[i] as int < 0x1_0000
    decreases |s|
  {
    if |s| > 0 {
      var front := s[..|s| - 1];
      Utf16LengthOfBmp(front);
      assert forall i | 0 <= i < |front| :: front[i] == s[i];
    }
  }

  /** The string that repeated `word += part` builds from `parts`, left to right. */
  function Concat(parts: seq<string>): string
  {
    if |parts| == 0 then "" else Concat(parts[..|parts| - 1]) + parts[|parts| - 1]
  }

  /** Appending one more part extends the concatenation by exactly that part. */
  lemma ConcatSnoc(parts: seq<string>, part: string)
    ensures Concat(parts + [part]) == Concat(parts) + part
  {
    assert (parts + [part])[..|parts|] == parts;
  }

  /** Adds `x` at the end unless it is already present: insertion into a
      JavaScript Set, whose iteration order is the order of first insertion. */
  function AddOnce<T(==)>(s: seq<T>, x: T): seq<T>
  {
    if x in s then s else s + [x]
  }

  /** The first occurrence of each element, in order of first occurrence. */
  function Dedup<T(==,!new)>(s: seq<T>): (r: seq<T>)
    ensures NoDuplicates(r)
    ensures forall x :: x in r <==> x in s
    ensures |r| <= |s|
  {
    if |s| == 0 then [] else AddOnce(Dedup(s[..|s| - 1]), s[|s| - 1])
  }

  /** No element occurs twice. */
  predicate NoDuplicates<T(==)>(s: seq<T>)
  {
    forall i, j | 0 <= i < j < |s| :: s[i] != s[j]
  }

  /** Some element of a non-empty set, the one iteration reaches first. */
  ghost function Pick<T>(s: set<T>): (x: T)
    requires s != {}
    ensures x in s
  {
    var x :| x in s; x
  }

  lemma UpdateTwice<K, V>(m: map<K, V>, k: K, a: V, b: V)
    ensures m[k := a][k := b] == m[k := b]
  {
  }

  /** Appending an element not yet present keeps a list free of duplicates. */
  lemma SnocFresh<T>(s: seq<T>, x: T)
    requires NoDuplicates(s) && x !in s
    ensures NoDuplicates(s + [x])
    ensures forall y :: y in s + [x] <==> y in s || y == x
  {
  }

  lemma UpdateRemove<K, V>(m: map<K, V>, k: K, v: V)
    ensures m[k := v] - {k} == m - {k}
  {
  }

  lemma HeadTail<T>(s: seq<T>)
    requires |s| > 0
    ensures [s[0]] + s[1..] == s
  {
  }

  lemma AppendAssoc<T>(a: seq<T>, b: seq<T>, c: seq<T>)
    ensures a + (b + c) == (a + b) + c
  {
  }

  /** In a list without duplicates, the element at `i` is not among those before it. */
  lemma NextUnvisited<T>(s: seq<T>, i: int)
    requires NoDuplicates(s) && 0 <= i < |s|
    ensures s[i] !in s[..i] && s[..i + 1] == s[..i] + [s[i]]
  {
    assert forall j | 0 <= j < i :: s[..i][j] == s[j] && s[j] != s[i];
  }

  /** The keys of `m`, each exactly once, in an order the model leaves open
      (a JavaScript Map iterates in insertion order, which the model does not track). */
  method KeysOf<K, V>(m: map<K, V>) returns (ks: seq<K>)
    ensures NoDuplicates(ks)
    ensures forall k :: k in ks <==> k in m
    ensures |ks| == |m|
  {
    ks := [];
    var rest := m.Keys;
    while rest != {}
      invariant rest <= m.Keys
      invariant NoDuplicates(ks)
      invariant forall k :: k in ks <==> k in m && k !in rest
      invariant |ks| + |rest| == |m|
      decreases |rest|
    {
      var k :| k in rest;
      ks := ks + [k];
      rest := rest - {k};
    }
  }
}

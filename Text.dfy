/** Kotlin standard-library string and collection operations used by the renderers:
    `split`, `joinToString`, `replace`, `filter`, `minus`, `distinct`, `sorted`,
    `sortedWith(compareBy { … })`, `groupBy` and ASCII `toLowerCase`, written out with the facts the
    renderers' properties rest on. */
module Text {

  // ---------------------------------------------------------------------------
  // Splitting and joining
  // ---------------------------------------------------------------------------

  /** `s.split(d1, d2, …)`: every delimiter closes the current segment, empty
      segments are kept, and the empty string splits into one empty segment. */
  function Split(s: string, delims: set<char>): (parts: seq<string>)
    ensures |parts| >= 1
    decreases |s|
  {
    if s == [] then [[]]
    else
      var rest := Split(s[1..], delims);
      if s[0] in delims then [[]] + rest
      else [[s[0]] + rest[0]] + rest[1..]
  }

  /** `parts.joinToString(separator = sep)`. */
  function Join(parts: seq<string>, sep: string): string
  {
    if |parts| == 0 then []
    else if |parts| == 1 then parts[0]
    else parts[0] + sep + Join(parts[1..], sep)
  }

  /** A joined list is the join of a prefix, the separator, and the join of the rest. */
  lemma {:induction false} JoinAt(parts: seq<string>, sep: string, k: nat)
    requires 0 < k < |parts|
    ensures Join(parts, sep) == Join(parts[..k], sep) + sep + Join(parts[k..], sep)
    decreases k
  {
    if k > 1 {
      JoinAt(parts[1..], sep, k - 1);
      assert parts[..k][1..] == parts[1..][..k - 1];
      assert parts[1..][k - 1..] == parts[k..];
    }
  }

  /** Joining two non-empty lists one after the other puts the separator between their joins. */
  lemma JoinConcat(a: seq<string>, b: seq<string>, sep: string)
    requires a != [] && b != []
    ensures Join(a + b, sep) == Join(a, sep) + sep + Join(b, sep)
  {
    JoinAt(a + b, sep, |a|);
    assert (a + b)[..|a|] == a;
    assert (a + b)[|a|..] == b;
  }

  /** A part placed between two non-empty lists stands between two separators. */
  lemma JoinBetween(a: seq<string>, x: string, b: seq<string>, sep: string)
    requires a != [] && b != []
    ensures Join(a + [x] + b, sep) == Join(a, sep) + sep + x + sep + Join(b, sep)
  {
    JoinConcat(a, [x] + b, sep);
    assert a + [x] + b == a + ([x] + b);
    assert ([x] + b)[1..] == b;
  }

  /** Each part but the first and the last stands between two separators. */
  lemma JoinAround(parts: seq<string>, sep: string, k: nat)
    requires 0 < k < |parts| - 1
    ensures Join(parts, sep) == Join(parts[..k], sep) + sep + parts[k] + sep + Join(parts[k + 1..], sep)
  {
    JoinAt(parts, sep, k);
    assert parts[k..][1..] == parts[k + 1..];
  }

  /** Number of characters of `s` that belong to `cs`. */
  function CountIn(s: string, cs: set<char>): nat
  {
    if s == [] then 0 else (if s[0] in cs then 1 else 0) + CountIn(s[1..], cs)
  }

  predicate NoneOf(s: string, cs: set<char>)
  {
    forall i :: 0 <= i < |s| ==> s[i] !in cs
  }

  lemma CountInAppend(a: string, b: string, cs: set<char>)
    ensures CountIn(a + b, cs) == CountIn(a, cs) + CountIn(b, cs)
  {
    if a != [] {
      assert (a + b)[0] == a[0];
      assert (a + b)[1..] == a[1..] + b;
      CountInAppend(a[1..], b, cs);
    } else {
      assert a + b == b;
    }
  }

  lemma CountInNone(s: string, cs: set<char>)
    requires NoneOf(s, cs)
    ensures CountIn(s, cs) == 0
  {
    if s != [] { CountInNone(s[1..], cs); }
  }

  /** There is one more segment than there are delimiters. */
  lemma {:induction false} SplitCount(s: string, delims: set<char>)
    ensures |Split(s, delims)| == 1 + CountIn(s, delims)
    decreases |s|
  {
    if s != [] { SplitCount(s[1..], delims); }
  }

  /** No segment contains a delimiter. */
  lemma {:induction false} SplitSegmentsClean(s: string, delims: set<char>)
    ensures forall k :: 0 <= k < |Split(s, delims)| ==> NoneOf(Split(s, delims)[k], delims)
    decreases |s|
  {
    if s != [] { SplitSegmentsClean(s[1..], delims); }
  }

  /** A character that does not occur in the string occurs in none of its segments. */
  lemma {:induction false} SplitSegmentsWithout(s: string, delims: set<char>, c: char)
    requires c !in s
    ensures forall k :: 0 <= k < |Split(s, delims)| ==> c !in Split(s, delims)[k]
    decreases |s|
  {
    if s != [] {
      assert c !in s[1..];
      SplitSegmentsWithout(s[1..], delims, c);
    }
  }

  /** A string without delimiters is a single segment. */
  lemma {:induction false} SplitNoDelimiter(s: string, delims: set<char>)
    requires NoneOf(s, delims)
    ensures Split(s, delims) == [s]
    decreases |s|
  {
    if s != [] {
      SplitNoDelimiter(s[1..], delims);
      assert s == [s[0]] + s[1..];
    }
  }

  /** Splitting `a + [d] + b` on a delimiter set containing `d` splits the two sides separately. */
  lemma {:induction false} SplitAround(a: string, d: char, b: string, delims: set<char>)
    requires d in delims
    ensures Split(a + [d] + b, delims) == Split(a, delims) + Split(b, delims)
    decreases |a|
  {
    if a == [] {
      assert a + [d] + b == [d] + b;
      assert ([d] + b)[1..] == b;
    } else {
      assert (a + [d] + b)[1..] == a[1..] + [d] + b;
      SplitAround(a[1..], d, b, delims);
    }
  }

  /** Joining the segments with the one delimiter character gives back the string. */
  lemma {:induction false} JoinSplit(s: string, d: char)
    ensures Join(Split(s, {d}), [d]) == s
    decreases |s|
  {
    if s != [] {
      var rest := Split(s[1..], {d});
      JoinSplit(s[1..], d);
      if s[0] == d {
        assert Split(s, {d}) == [[]] + rest;
        assert s == [d] + s[1..];
      } else {
        var parts := Split(s, {d});
        assert parts == [[s[0]] + rest[0]] + rest[1..];
        if |rest| == 1 {
          assert Join(parts, [d]) == [s[0]] + rest[0];
        } else {
          assert Join(rest, [d]) == rest[0] + [d] + Join(rest[1..], [d]);
          assert parts[1..] == rest[1..];
        }
      }
    }
  }

  /** Splitting a join of delimiter-free parts gives the parts back. */
  lemma {:induction false} SplitJoin(parts: seq<string>, d: char)
    requires |parts| >= 1
    requires forall k :: 0 <= k < |parts| ==> d !in parts[k]
    ensures Split(Join(parts, [d]), {d}) == parts
    decreases |parts|
  {
    assert NoneOf(parts[0], {d});
    if |parts| == 1 {
      SplitNoDelimiter(parts[0], {d});
    } else {
      SplitJoin(parts[1..], d);
      SplitAround(parts[0], d, Join(parts[1..], [d]), {d});
      SplitNoDelimiter(parts[0], {d});
      assert [parts[0]] + parts[1..] == parts;
    }
  }

  lemma JoinAppendOne(parts: seq<string>, last: string, sep: string)
    requires |parts| >= 1
    ensures Join(parts + [last], sep) == Join(parts, sep) + sep + last
    decreases |parts|
  {
    if |parts| == 1 {
      assert parts + [last] == [parts[0], last];
    } else {
      assert (parts + [last])[1..] == parts[1..] + [last];
      JoinAppendOne(parts[1..], last, sep);
    }
  }

  /** `ends with` on strings. */
  predicate EndsWith(s: string, suffix: string)
  {
    |suffix| <= |s| && s[|s| - |suffix|..] == suffix
  }

  predicate StartsWith(s: string, prefix: string)
  {
    |prefix| <= |s| && s[..|prefix|] == prefix
  }

  /** A concatenation starts with its left part and ends with its right part. */
  lemma AppendEnds(x: string, y: string)
    ensures StartsWith(x + y, x) && EndsWith(x + y, y)
  {
    assert (x + y)[..|x|] == x;
    assert (x + y)[|x + y| - |y|..] == y;
  }

  // ---------------------------------------------------------------------------
  // Letter case, on ASCII
  // ---------------------------------------------------------------------------

  predicate IsUpperAscii(c: char)
  {
    'A' <= c <= 'Z'
  }

  /** `lowercaseChar()` on ASCII: an upper-case letter becomes its lower-case form,
      anything else is kept. */
  function LowerChar(c: char): char
  {
    if IsUpperAscii(c) then (c as int + 32) as char else c
  }

  /** `toLowerCase()` on ASCII, character by character. */
  function LowerAscii(s: string): string
  {
    seq(|s|, i requires 0 <= i < |s| => LowerChar(s[i]))
  }

  // ---------------------------------------------------------------------------
  // Replacing
  // ---------------------------------------------------------------------------

  /** `s.replace(a, b)` for single characters (also what `replace(".", "/")` does). */
  function ReplaceChar(s: string, a: char, b: char): (r: string)
  {
    seq(|s|, i requires 0 <= i < |s| => if s[i] == a then b else s[i])
  }

  /** Splitting on `a` and joining with `b` is replacing `a` by `b`. */
  lemma {:induction false} JoinSplitIsReplace(s: string, a: char, b: char)
    ensures Join(Split(s, {a}), [b]) == ReplaceChar(s, a, b)
    decreases |s|
  {
    if s != [] {
      var rest := Split(s[1..], {a});
      JoinSplitIsReplace(s[1..], a, b);
      assert ReplaceChar(s, a, b) == [if s[0] == a then b else s[0]] + ReplaceChar(s[1..], a, b);
      if s[0] != a {
        var parts := Split(s, {a});
        if |rest| > 1 {
          assert parts[1..] == rest[1..];
        }
      }
    }
  }

  /** `s.replace(pat, rep)` for a non-empty pattern: occurrences are found left to
      right and do not overlap. */
  function ReplaceAll(s: string, pat: string, rep: string): string
    requires pat != []
    decreases |s|
  {
    if s == [] then []
    else if StartsWith(s, pat) then rep + ReplaceAll(s[|pat|..], pat, rep)
    else [s[0]] + ReplaceAll(s[1..], pat, rep)
  }

  /** After replacing every one-character pattern by a text without it, none is left. */
  lemma {:induction false} ReplaceAllRemoves(s: string, c: char, rep: string)
    requires c !in rep
    ensures c !in ReplaceAll(s, [c], rep)
    decreases |s|
  {
    if s != [] { ReplaceAllRemoves(s[1..], c, rep); }
  }

  /** A text in which the pattern's first character never occurs is left alone,
      and a replacement can only start after it. */
  lemma {:induction false} ReplaceAllSkip(x: string, rest: string, pat: string, rep: string)
    requires pat != [] && pat[0] !in x
    ensures ReplaceAll(x + rest, pat, rep) == x + ReplaceAll(rest, pat, rep)
    decreases |x|
  {
    if x != [] {
      assert (x + rest)[0] == x[0];
      assert (x + rest)[1..] == x[1..] + rest;
      ReplaceAllSkip(x[1..], rest, pat, rep);
    } else {
      assert x + rest == rest;
    }
  }

  /** Replacing characters works piece by piece. */
  lemma ReplaceCharAppend(x: string, y: string, a: char, b: char)
    ensures ReplaceChar(x + y, a, b) == ReplaceChar(x, a, b) + ReplaceChar(y, a, b)
  {
  }

  /** A text without the character is left alone. */
  lemma ReplaceCharAbsent(s: string, a: char, b: char)
    requires a !in s
    ensures ReplaceChar(s, a, b) == s
  {
  }

  /** After replacing a character by a different one, it no longer occurs. */
  lemma ReplaceCharRemoves(s: string, a: char, b: char)
    requires a != b
    ensures a !in ReplaceChar(s, a, b)
  {
    var r := ReplaceChar(s, a, b);
    forall i | 0 <= i < |r| ensures r[i] != a {}
  }

  /** `pat` occurs in `s` at some position. */
  predicate Occurs(s: string, pat: string)
  {
    exists i :: 0 <= i <= |s| && StartsWith(s[i..], pat)
  }

  /** A text in which the pattern does not occur is left alone. */
  lemma {:induction false} ReplaceAllAbsent(s: string, pat: string, rep: string)
    requires pat != [] && !Occurs(s, pat)
    ensures ReplaceAll(s, pat, rep) == s
    decreases |s|
  {
    if s != [] {
      assert s[0..] == s;
      forall i | 0 <= i <= |s[1..]| ensures !StartsWith(s[1..][i..], pat) {
        assert s[1..][i..] == s[i + 1..];
      }
      ReplaceAllAbsent(s[1..], pat, rep);
    }
  }

  /** A leading occurrence of the pattern is replaced, and the rest is processed on. */
  lemma ReplaceAllLeading(pat: string, rest: string, rep: string)
    requires pat != []
    ensures ReplaceAll(pat + rest, pat, rep) == rep + ReplaceAll(rest, pat, rep)
  {
    assert (pat + rest)[..|pat|] == pat;
    assert (pat + rest)[|pat|..] == rest;
  }

  // ---------------------------------------------------------------------------
  // Lists
  // ---------------------------------------------------------------------------

  /** `s.map(f)`. */
  function Map<A, B>(f: A -> B, s: seq<A>): (r: seq<B>)
  {
    seq(|s|, i requires 0 <= i < |s| => f(s[i]))
  }

  /** Mapping two lists with the same elements gives lists with the same elements. */
  lemma {:induction false} MapPreservesMultiset<A, B>(f: A -> B, a: seq<A>, b: seq<A>)
    requires multiset(a) == multiset(b)
    ensures multiset(Map(f, a)) == multiset(Map(f, b))
    decreases |a|
  {
    if a != [] {
      var k := MatchFirst(a, b);
      MapPreservesMultiset(f, a[1..], b[..k] + b[k + 1..]);
      MapRemoveAt(f, a, 0);
      MapRemoveAt(f, b, k);
      assert a[..0] + a[1..] == a[1..];
    }
  }

  /** In a permutation of a non-empty list, the first element sits at some `k`, and the
      rest of the list is a permutation of the other list without position `k`. */
  lemma MatchFirst<T>(a: seq<T>, b: seq<T>) returns (k: nat)
    requires a != [] && multiset(a) == multiset(b)
    ensures k < |b| && b[k] == a[0]
    ensures multiset(a[1..]) == multiset(b[..k] + b[k + 1..])
  {
    assert a[0] in multiset(b);
    k :| 0 <= k < |b| && b[k] == a[0];
    assert a == [a[0]] + a[1..];
    RemoveAt(b, k);
    assert multiset(a) == multiset(a[1..]) + multiset{a[0]};
    assert multiset(a[1..]) == multiset(a) - multiset{a[0]};
    assert multiset(b[..k] + b[k + 1..]) == multiset(b) - multiset{a[0]};
  }

  /** Dropping the element at `k` takes one copy of it out of the multiset. */
  lemma RemoveAt<T>(s: seq<T>, k: nat)
    requires k < |s|
    ensures multiset(s) == multiset(s[..k] + s[k + 1..]) + multiset{s[k]}
  {
    assert s == s[..k] + [s[k]] + s[k + 1..];
  }

  /** The image of a list with one element dropped is the image with its image dropped. */
  lemma MapRemoveAt<A, B>(f: A -> B, s: seq<A>, k: nat)
    requires k < |s|
    ensures multiset(Map(f, s)) == multiset(Map(f, s[..k] + s[k + 1..])) + multiset{f(s[k])}
  {
    var m := Map(f, s);
    RemoveAt(m, k);
    assert m[..k] + m[k + 1..] == Map(f, s[..k] + s[k + 1..]);
  }

  /** Mapping one more element appends its image. */
  lemma MapSnoc<A, B>(f: A -> B, s: seq<A>, i: nat)
    requires i < |s|
    ensures Map(f, s[..i + 1]) == Map(f, s[..i]) + [f(s[i])]
  {
  }

  /** `s.filter(p)`: the elements satisfying `p`, in order. */
  function Filter<T>(p: T -> bool, s: seq<T>): (r: seq<T>)
    ensures |r| <= |s|
  {
    if s == [] then [] else (if p(s[0]) then [s[0]] else []) + Filter(p, s[1..])
  }

  /** What passes the filter is exactly what is in the list and satisfies `p`, and
      nothing is passed more often than it occurs. */
  lemma {:induction false} FilterMembers<T(!new)>(p: T -> bool, s: seq<T>)
    ensures forall x :: x in Filter(p, s) <==> x in s && p(x)
    ensures multiset(Filter(p, s)) <= multiset(s)
    decreases |s|
  {
    if s != [] {
      FilterMembers(p, s[1..]);
      assert s == [s[0]] + s[1..];
    }
  }

  lemma FilterCons<T>(p: T -> bool, x: T, s: seq<T>)
    ensures Filter(p, [x] + s) == (if p(x) then [x] else []) + Filter(p, s)
  {
    assert ([x] + s)[1..] == s;
  }

  lemma FilterAppend<T>(p: T -> bool, a: seq<T>, b: seq<T>)
    ensures Filter(p, a + b) == Filter(p, a) + Filter(p, b)
  {
    if a != [] {
      assert (a + b)[0] == a[0];
      assert (a + b)[1..] == a[1..] + b;
      FilterAppend(p, a[1..], b);
      var h: seq<T> := if p(a[0]) then [a[0]] else [];
      assert Filter(p, a + b) == h + Filter(p, a[1..] + b);
      assert Filter(p, a) == h + Filter(p, a[1..]);
      assert h + (Filter(p, a[1..]) + Filter(p, b)) == (h + Filter(p, a[1..])) + Filter(p, b);
    } else {
      assert a + b == b;
      assert Filter(p, a) == [];
    }
  }

  /** When every element passes exactly one of two predicates, the two filters
      share the list between them. */
  lemma {:induction false} FilterComplement<T>(p: T -> bool, q: T -> bool, s: seq<T>)
    requires forall i :: 0 <= i < |s| ==> (q(s[i]) <==> !p(s[i]))
    ensures |Filter(p, s)| + |Filter(q, s)| == |s|
    decreases |s|
  {
    if s != [] {
      assert q(s[0]) <==> !p(s[0]);
      FilterComplement(p, q, s[1..]);
    }
  }

  /** When an element passes and none before it does, it heads the filtered list. */
  lemma {:induction false} FilterFirst<T>(p: T -> bool, s: seq<T>, i: nat)
    requires i < |s| && p(s[i])
    requires forall j :: 0 <= j < i ==> !p(s[j])
    ensures Filter(p, s) != [] && Filter(p, s)[0] == s[i]
    decreases i
  {
    if i > 0 {
      FilterFirst(p, s[1..], i - 1);
    }
  }

  /** When nothing passes, the filtered list is empty. */
  lemma {:induction false} FilterNone<T>(p: T -> bool, s: seq<T>)
    requires forall j :: 0 <= j < |s| ==> !p(s[j])
    ensures Filter(p, s) == []
    decreases |s|
  {
    if s != [] {
      FilterNone(p, s[1..]);
    }
  }

  /** Two filters in a row are one filter by both predicates. */
  lemma {:induction false} FilterFilter<T>(p: T -> bool, q: T -> bool, pq: T -> bool, s: seq<T>)
    requires forall j :: 0 <= j < |s| ==> (pq(s[j]) <==> p(s[j]) && q(s[j]))
    ensures Filter(q, Filter(p, s)) == Filter(pq, s)
    decreases |s|
  {
    if s != [] {
      FilterFilter(p, q, pq, s[1..]);
      var h: seq<T> := if p(s[0]) then [s[0]] else [];
      FilterAppend(q, h, Filter(p, s[1..]));
    }
  }

  /** `a - b` on lists: every element of `a` that occurs in `b` is dropped, order kept. */
  function Minus<T(==,!new)>(a: seq<T>, b: seq<T>): (r: seq<T>)
    ensures forall x :: x in r <==> x in a && x !in b
  {
    FilterMembers(x => x !in b, a);
    Filter(x => x !in b, a)
  }

  /** `ss.flatten()`. */
  function Flatten<T>(ss: seq<seq<T>>): seq<T>
  {
    if ss == [] then [] else ss[0] + Flatten(ss[1..])
  }

  lemma FlattenAppend<T>(a: seq<seq<T>>, b: seq<seq<T>>)
    ensures Flatten(a + b) == Flatten(a) + Flatten(b)
  {
    if a != [] {
      assert (a + b)[0] == a[0];
      assert (a + b)[1..] == a[1..] + b;
      FlattenAppend(a[1..], b);
    } else {
      assert a + b == b;
    }
  }

  predicate NoDuplicates<T(==)>(s: seq<T>)
  {
    forall i, j :: 0 <= i < j < |s| ==> s[i] != s[j]
  }

  /** `distinct()` seeded with the values already seen: keeps each first occurrence. */
  function DistinctFrom<T(==,!new)>(s: seq<T>, seen: set<T>): (r: seq<T>)
    ensures forall x :: x in r <==> x in s && x !in seen
    ensures NoDuplicates(r)
  {
    if s == [] then []
    else if s[0] in seen then DistinctFrom(s[1..], seen)
    else [s[0]] + DistinctFrom(s[1..], seen + {s[0]})
  }

  /** `s.distinct()`. */
  function Distinct<T(==,!new)>(s: seq<T>): (r: seq<T>)
    ensures forall x :: x in r <==> x in s
    ensures NoDuplicates(r)
  {
    DistinctFrom(s, {})
  }

  // ---------------------------------------------------------------------------
  // Ordering: Kotlin's String.compareTo, and sorting
  // ---------------------------------------------------------------------------

  /** Lexicographic order on strings: character by character, a proper prefix first. */
  predicate LexLe(a: string, b: string)
    decreases |a|
  {
    a == [] || (b != [] && (a[0] < b[0] || (a[0] == b[0] && LexLe(a[1..], b[1..]))))
  }

  lemma {:induction false} LexLeTotal(a: string, b: string)
    ensures LexLe(a, b) || LexLe(b, a)
    decreases |a|
  {
    if a != [] && b != [] && a[0] == b[0] { LexLeTotal(a[1..], b[1..]); }
  }

  lemma {:induction false} LexLeTransitive(a: string, b: string, c: string)
    requires LexLe(a, b) && LexLe(b, c)
    ensures LexLe(a, c)
    decreases |a|
  {
    if a != [] && b != [] && c != [] && a[0] == b[0] == c[0] {
      LexLeTransitive(a[1..], b[1..], c[1..]);
    }
  }

  lemma {:induction false} LexLeAntisymmetric(a: string, b: string)
    requires LexLe(a, b) && LexLe(b, a)
    ensures a == b
    decreases |a|
  {
    if a != [] {
      LexLeAntisymmetric(a[1..], b[1..]);
      assert a == [a[0]] + a[1..] && b == [b[0]] + b[1..];
    }
  }

  /** The keys of `s` are in non-decreasing order. */
  predicate SortedBy<T>(s: seq<T>, key: T -> string)
  {
    forall i, j :: 0 <= i < j < |s| ==> LexLe(key(s[i]), key(s[j]))
  }

  /** Inserts `x` before the first element whose key is not below `x`'s. */
  function Insert<T>(x: T, s: seq<T>, key: T -> string): (r: seq<T>)
    ensures multiset(r) == multiset(s) + multiset{x}
    ensures |r| == |s| + 1
  {
    if s == [] then [x]
    else if LexLe(key(x), key(s[0])) then [x] + s
    else
      assert s == [s[0]] + s[1..];
      [s[0]] + Insert(x, s[1..], key)
  }

  lemma {:induction false} InsertSorted<T>(x: T, s: seq<T>, key: T -> string)
    requires SortedBy(s, key)
    ensures SortedBy(Insert(x, s, key), key)
    decreases |s|
  {
    var r := Insert(x, s, key);
    if s == [] {
    } else if LexLe(key(x), key(s[0])) {
      forall i, j | 0 <= i < j < |r| ensures LexLe(key(r[i]), key(r[j])) {
        if i == 0 && j > 1 {
          LexLeTransitive(key(x), key(s[0]), key(s[j - 1]));
        }
      }
    } else {
      InsertSorted(x, s[1..], key);
      var tail := Insert(x, s[1..], key);
      assert r == [s[0]] + tail;
      LexLeTotal(key(x), key(s[0]));
      forall i, j | 0 <= i < j < |r| ensures LexLe(key(r[i]), key(r[j])) {
        if i == 0 {
          assert r[j] == tail[j - 1];
          assert r[j] in multiset(tail);
          assert r[j] in multiset(s[1..]) + multiset{x};
          if r[j] != x {
            assert r[j] in multiset(s[1..]);
            var k :| 0 <= k < |s[1..]| && s[1..][k] == r[j];
            assert s[k + 1] == r[j];
          }
        } else {
          assert r[i] == tail[i - 1] && r[j] == tail[j - 1];
        }
      }
    }
  }

  /** `sortedWith(compareBy(key))`: a stable insertion sort by a string key. */
  function SortBy<T>(s: seq<T>, key: T -> string): (r: seq<T>)
    ensures multiset(r) == multiset(s)
    ensures |r| == |s|
  {
    if s == [] then []
    else
      assert s == [s[0]] + s[1..];
      Insert(s[0], SortBy(s[1..], key), key)
  }

  /** The result of `SortBy` is sorted by the key. */
  lemma {:induction false} SortBySorted<T>(s: seq<T>, key: T -> string)
    ensures SortedBy(SortBy(s, key), key)
    decreases |s|
  {
    if s != [] {
      SortBySorted(s[1..], key);
      InsertSorted(s[0], SortBy(s[1..], key), key);
    }
  }

  function Identity(s: string): string { s }

  /** `sorted()` on strings. */
  function Sort(s: seq<string>): (r: seq<string>)
    ensures multiset(r) == multiset(s)
  {
    SortBy(s, Identity)
  }

  /** Sorting a list without duplicates gives a strictly increasing list. */
  lemma SortedDistinctStrict(s: seq<string>)
    requires NoDuplicates(s)
    ensures NoDuplicates(Sort(s))
    ensures forall i, j :: 0 <= i < j < |Sort(s)| ==> LexLe(Sort(s)[i], Sort(s)[j]) && Sort(s)[i] != Sort(s)[j]
  {
    var r := Sort(s);
    SortBySorted(s, Identity);
    MultisetNoDuplicates(s, r);
  }

  /** `distinct().sorted()`: everything in the list, each once, in strictly
      increasing order. */
  lemma SortDistinct(s: seq<string>)
    ensures NoDuplicates(Sort(Distinct(s)))
    ensures forall i, j :: 0 <= i < j < |Sort(Distinct(s))| ==>
      LexLe(Sort(Distinct(s))[i], Sort(Distinct(s))[j]) && Sort(Distinct(s))[i] != Sort(Distinct(s))[j]
    ensures forall x :: x in Sort(Distinct(s)) <==> x in s
  {
    var d := Distinct(s);
    SortedDistinctStrict(d);
    var r := Sort(d);
    forall x ensures x in r <==> x in s {
      assert x in r <==> x in multiset(r);
      assert x in d <==> x in multiset(d);
    }
  }

  lemma MultisetNoDuplicates<T>(s: seq<T>, r: seq<T>)
    requires NoDuplicates(s) && multiset(r) == multiset(s)
    ensures NoDuplicates(r)
  {
    forall x | x in multiset(s) ensures multiset(s)[x] == 1 {
      CountOne(s, x);
    }
    forall i, j | 0 <= i < j < |r| ensures r[i] != r[j] {
      if r[i] == r[j] {
        TwiceCounted(r, i, j);
        assert false;
      }
    }
  }

  lemma TwiceCounted<T>(r: seq<T>, i: nat, j: nat)
    requires i < j < |r| && r[i] == r[j]
    ensures multiset(r)[r[i]] >= 2
  {
    var x := r[i];
    assert r == r[..i] + [x] + r[i+1..];
    assert r[i+1..] == r[i+1..j] + [x] + r[j+1..];
  }

  lemma CountOne<T>(s: seq<T>, x: T)
    requires NoDuplicates(s) && x in s
    ensures multiset(s)[x] == 1
  {
    if s[0] == x {
      assert s == [x] + s[1..];
      assert x !in s[1..];
    } else {
      assert s == [s[0]] + s[1..];
      CountOne(s[1..], x);
    }
  }

  // ---------------------------------------------------------------------------
  // Grouping
  // ---------------------------------------------------------------------------

  datatype Group<K, T> = Group(key: K, members: seq<T>)

  /** The elements of `s` whose key is `k`, in order. */
  function WithKey<K(==,!new), T(!new)>(s: seq<T>, key: T -> K, k: K): (r: seq<T>)
    ensures forall x :: x in r <==> x in s && key(x) == k
  {
    FilterMembers(x => key(x) == k, s);
    Filter(x => key(x) == k, s)
  }

  /** `s.groupBy(key)` read in iteration order: one group per distinct key, keys in
      order of first appearance, each group's members in input order. */
  function GroupBy<K(==,!new), T(!new)>(s: seq<T>, key: T -> K): (gs: seq<Group<K, T>>)
  {
    var keys := Distinct(Map(key, s));
    seq(|keys|, i requires 0 <= i < |keys| => Group(keys[i], WithKey(s, key, keys[i])))
  }

  /** The groups have distinct keys, one for each key that occurs, each non-empty and
      holding exactly the elements with that key; so every element sits in exactly one group. */
  lemma GroupByPartition<K(!new), T(!new)>(s: seq<T>, key: T -> K)
    ensures var gs := GroupBy(s, key);
      && (forall i, j :: 0 <= i < j < |gs| ==> gs[i].key != gs[j].key)
      && (forall x :: x in s ==> exists i :: 0 <= i < |gs| && gs[i].key == key(x))
      && (forall i :: 0 <= i < |gs| ==> gs[i].members != [])
      && (forall i, x :: 0 <= i < |gs| ==> (x in gs[i].members <==> x in s && key(x) == gs[i].key))
  {
    var gs := GroupBy(s, key);
    var keys := Distinct(Map(key, s));
    forall x | x in s ensures exists i :: 0 <= i < |gs| && gs[i].key == key(x) {
      var k :| 0 <= k < |s| && s[k] == x;
      assert Map(key, s)[k] == key(x);
      assert key(x) in keys;
      var i :| 0 <= i < |keys| && keys[i] == key(x);
      assert gs[i].key == key(x);
    }
    forall i | 0 <= i < |gs| ensures gs[i].members != [] {
      assert keys[i] in Map(key, s);
      var k :| 0 <= k < |s| && Map(key, s)[k] == keys[i];
      assert s[k] in gs[i].members;
    }
  }
}

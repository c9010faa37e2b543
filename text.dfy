/** String operations of the Swift standard library and Foundation that
    the model needs, over ASCII:
    case mapping, single-character replacement, word capitalisation,
    splitting on and joining with a separator, and the ordering `<` that
    Swift's `sorted(by:)` compares names with. */
module Text {

  predicate IsUpper(c: char) { 'A' <= c <= 'Z' }

  predicate IsLower(c: char) { 'a' <= c <= 'z' }

  function LowerChar(c: char): char {
    if IsUpper(c) then (c as int + 32) as char else c
  }

  function UpperChar(c: char): char {
    if IsLower(c) then (c as int - 32) as char else c
  }

  /** `String.lowercased()`, restricted to ASCII letters. */
  function Lowercased(s: string): string {
    seq(|s|, i requires 0 <= i < |s| => LowerChar(s[i]))
  }

  /** `replacingOccurrences(of:with:)` for one-character patterns. */
  function Replacing(s: string, from: char, to: char): string {
    seq(|s|, i requires 0 <= i < |s| => if s[i] == from then to else s[i])
  }

  /** The word separators this model uses for `capitalized`: spaces, tabs
      and line terminators. Foundation's rule is broader. */
  predicate IsWordSeparator(c: char) {
    c == ' ' || c == '\t' || c == '\n' || c == '\r'
  }

  predicate StartsWord(s: string, i: int)
    requires 0 <= i < |s|
  {
    i == 0 || IsWordSeparator(s[i - 1])
  }

  /** `capitalized(with:)`: the first character of every word upper-case,
      every other character lower-case. */
  function Capitalized(s: string): string {
    seq(|s|, i requires 0 <= i < |s| => if StartsWord(s, i) then UpperChar(s[i]) else LowerChar(s[i]))
  }

  /** Number of occurrences of `c` in `s`. */
  function Count(s: string, c: char): nat {
    if s == [] then 0 else (if s[0] == c then 1 else 0) + Count(s[1..], c)
  }

  /** `components(separatedBy:)` with a one-character separator: the pieces
      between separators, in order, empty pieces included. */
  function Split(s: string, sep: char): (pieces: seq<string>)
    ensures |pieces| >= 1
  {
    if s == [] then [[]]
    else
      var rest := Split(s[1..], sep);
      if s[0] == sep then [[]] + rest
      else [[s[0]] + rest[0]] + rest[1..]
  }

  /** `joined(separator:)` with a one-character separator. */
  function Join(xs: seq<string>, sep: char): string {
    if |xs| == 0 then []
    else if |xs| == 1 then xs[0]
    else xs[0] + [sep] + Join(xs[1..], sep)
  }

  /** `a` occurs in `b` starting at position `k`. */
  predicate OccursAt(a: string, b: string, k: int) {
    0 <= k && k + |a| <= |b| && b[k..k + |a|] == a
  }

  ghost predicate IsSubstring(a: string, b: string) {
    exists k :: OccursAt(a, b, k)
  }

  /** Swift's `String <` on ASCII text: lexicographic on character codes
      (this is `<=`; a prefix comes first). */
  predicate StrLe(a: string, b: string) {
    |a| == 0 || (|b| > 0 && (a[0] < b[0] || (a[0] == b[0] && StrLe(a[1..], b[1..]))))
  }

  // ---------------------------------------------------------------------
  // Splitting and joining

  lemma JoinCons(x: string, ys: seq<string>, sep: char)
    requires |ys| >= 1
    ensures Join([x] + ys, sep) == x + [sep] + Join(ys, sep)
  {
    assert ([x] + ys)[1..] == ys;
  }

  /** Joining the pieces of a split gives back the original string. */
  lemma {:induction false} SplitJoin(s: string, sep: char)
    ensures Join(Split(s, sep), sep) == s
  {
    if s != [] {
      var rest := Split(s[1..], sep);
      SplitJoin(s[1..], sep);
      var pieces := Split(s, sep);
      if s[0] == sep {
        assert pieces == [[]] + rest;
        JoinCons([], rest, sep);
      } else if |rest| == 1 {
        assert pieces == [[s[0]] + rest[0]];
      } else {
        assert pieces == [[s[0]] + rest[0]] + rest[1..];
        JoinCons([s[0]] + rest[0], rest[1..], sep);
        assert rest == [rest[0]] + rest[1..];
        JoinCons(rest[0], rest[1..], sep);
      }
      assert s == [s[0]] + s[1..];
    }
  }

  lemma {:induction false} SplitCount(s: string, sep: char)
    ensures |Split(s, sep)| == Count(s, sep) + 1
  {
    if s != [] {
      SplitCount(s[1..], sep);
    }
  }

  lemma {:induction false} SplitPiecesLackSeparator(s: string, sep: char)
    ensures forall i :: 0 <= i < |Split(s, sep)| ==> sep !in Split(s, sep)[i]
  {
    if s != [] {
      SplitPiecesLackSeparator(s[1..], sep);
      var rest := Split(s[1..], sep);
      if s[0] != sep {
        assert sep !in [s[0]] + rest[0];
      }
    }
  }

  lemma {:induction false} SplitWithoutSeparator(a: string, sep: char)
    requires sep !in a
    ensures Split(a, sep) == [a]
  {
    if a != [] {
      SplitWithoutSeparator(a[1..], sep);
      assert [a[0]] + a[1..] == a;
    }
  }

  lemma {:induction false} SplitAfterPiece(a: string, sep: char, b: string)
    requires sep !in a
    ensures Split(a + [sep] + b, sep) == [a] + Split(b, sep)
  {
    if a == [] {
      assert (a + [sep] + b)[1..] == b;
    } else {
      var s := a + [sep] + b;
      assert s[1..] == a[1..] + [sep] + b;
      SplitAfterPiece(a[1..], sep, b);
      assert [a[0]] + a[1..] == a;
    }
  }

  /** Splitting undoes joining, for a non-empty list of pieces that do not
      contain the separator. */
  lemma {:induction false} JoinSplit(xs: seq<string>, sep: char)
    requires |xs| >= 1
    requires forall i :: 0 <= i < |xs| ==> sep !in xs[i]
    ensures Split(Join(xs, sep), sep) == xs
  {
    if |xs| == 1 {
      SplitWithoutSeparator(xs[0], sep);
    } else {
      JoinSplit(xs[1..], sep);
      SplitAfterPiece(xs[0], sep, Join(xs[1..], sep));
      assert [xs[0]] + xs[1..] == xs;
    }
  }

  /** Every piece occurs in the joined string. */
  lemma {:induction false} JoinContains(xs: seq<string>, sep: char, i: nat)
    requires i < |xs|
    ensures IsSubstring(xs[i], Join(xs, sep))
  {
    var joined := Join(xs, sep);
    if i == 0 {
      assert OccursAt(xs[0], joined, 0);
    } else {
      JoinContains(xs[1..], sep, i - 1);
      var tail := Join(xs[1..], sep);
      var k :| OccursAt(xs[i], tail, k);
      var offset := |xs[0]| + 1 + k;
      assert joined == xs[0] + [sep] + tail;
      assert joined[offset..offset + |xs[i]|] == tail[k..k + |xs[i]|];
      assert OccursAt(xs[i], joined, offset);
    }
  }

  lemma SubstringOfConcat(a: string, p: string, b: string, q: string)
    requires IsSubstring(a, b)
    ensures IsSubstring(a, p + b + q)
  {
    var k :| OccursAt(a, b, k);
    var whole := p + b + q;
    assert whole[|p| + k..|p| + k + |a|] == b[k..k + |a|];
    assert OccursAt(a, whole, |p| + k);
  }

  // ---------------------------------------------------------------------
  // Case mapping

  lemma CaseMappingFacts(c: char)
    ensures LowerChar(UpperChar(c)) == LowerChar(c)
    ensures LowerChar(LowerChar(c)) == LowerChar(c)
    ensures UpperChar(UpperChar(c)) == UpperChar(c)
    ensures UpperChar(LowerChar(c)) == UpperChar(c)
    ensures IsWordSeparator(UpperChar(c)) == IsWordSeparator(c)
    ensures IsWordSeparator(LowerChar(c)) == IsWordSeparator(c)
    ensures UpperChar(c) == '_' <==> c == '_'
    ensures LowerChar(c) == '_' <==> c == '_'
    ensures LowerChar(c) == ' ' <==> c == ' '
  {
  }

  /** Capitalising twice is capitalising once. */
  lemma CapitalizedIdempotent(s: string)
    ensures Capitalized(Capitalized(s)) == Capitalized(s)
  {
    var t := Capitalized(s);
    forall i | 0 <= i < |s|
      ensures Capitalized(t)[i] == t[i]
    {
      CaseMappingFacts(s[i]);
      if i > 0 {
        CaseMappingFacts(s[i - 1]);
        assert IsWordSeparator(t[i - 1]) == IsWordSeparator(s[i - 1]);
      }
    }
  }

  /** Lower-casing forgets what capitalising did. */
  lemma LowercasedCapitalized(s: string)
    ensures Lowercased(Capitalized(s)) == Lowercased(s)
  {
    forall i | 0 <= i < |s|
      ensures Lowercased(Capitalized(s))[i] == Lowercased(s)[i]
    {
      CaseMappingFacts(s[i]);
    }
  }

  lemma ReplacingRemoves(s: string, from: char, to: char)
    requires from != to
    ensures from !in Replacing(s, from, to)
  {
    var r := Replacing(s, from, to);
    forall i | 0 <= i < |r|
      ensures r[i] != from
    {
    }
  }

  lemma CapitalizedKeepsUnderscores(s: string)
    ensures '_' in Capitalized(s) <==> '_' in s
  {
    var t := Capitalized(s);
    forall i | 0 <= i < |s|
      ensures t[i] == '_' <==> s[i] == '_'
    {
      CaseMappingFacts(s[i]);
    }
    if '_' in t {
      var i :| 0 <= i < |t| && t[i] == '_';
      assert s[i] == '_';
    }
    if '_' in s {
      var i :| 0 <= i < |s| && s[i] == '_';
      assert t[i] == '_';
    }
  }

  // ---------------------------------------------------------------------
  // Ordering

  lemma {:induction false} StrLeTotal(a: string, b: string)
    ensures StrLe(a, b) || StrLe(b, a)
  {
    if |a| > 0 && |b| > 0 && a[0] == b[0] {
      StrLeTotal(a[1..], b[1..]);
    }
  }

  lemma {:induction false} StrLeTransitive(a: string, b: string, c: string)
    requires StrLe(a, b) && StrLe(b, c)
    ensures StrLe(a, c)
  {
    if |a| > 0 && a[0] == b[0] && b[0] == c[0] {
      StrLeTransitive(a[1..], b[1..], c[1..]);
    }
  }
}

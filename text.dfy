/**
 * The parts of Go's `strings` and `fmt` packages that the bot's parsing relies
 * on, for the one separator it ever uses (a single space): `strings.Split`,
 * `strings.SplitN`, `strings.HasPrefix`, `strings.EqualFold` (ASCII letters
 * only) and the `%d` rendering of an unsigned integer. Go strings are byte
 * strings; here a string is a `seq<char>`, which agrees with Go for everything
 * the bot compares because a space never occurs inside a multi-byte UTF-8
 * sequence.
 */
module Text {
  import opened Seqs

  const Space: char := ' '

  predicate NoSpace(t: string) {
    Space !in t
  }

  /** Go's `strings.HasPrefix(s, p)`: `len(s) >= len(p) && s[:len(p)] == p`. */
  predicate HasPrefix(s: string, p: string) {
    |p| <= |s| && s[..|p|] == p
  }

  /** A string with the prefix `p` is `p` followed by the rest. */
  lemma HasPrefixSplits(s: string, p: string)
    requires HasPrefix(s, p)
    ensures s == p + s[|p|..]
  {
  }

  /** Conversely, a string that starts with `p` has the prefix `p`. */
  lemma HasPrefixOfAppend(p: string, t: string)
    ensures HasPrefix(p + t, p)
  {
    assert (p + t)[..|p|] == p;
  }

  /** Position of the first space of `s`, or `|s|` when `s` has none. */
  function IndexOfSpace(s: string): (i: nat)
    ensures i <= |s|
    ensures NoSpace(s[..i])
    ensures i < |s| ==> s[i] == Space
  {
    if |s| == 0 then 0
    else if s[0] == Space then 0
    else
      var j := IndexOfSpace(s[1..]);
      TakeOneMore(s, j);
      1 + j
  }

  /**
   * Go's `strings.Split(s, " ")`: the pieces between consecutive spaces.
   * Adjacent spaces give empty pieces and a string without spaces is one piece.
   */
  function Split(s: string): (r: seq<string>)
    ensures |r| >= 1
    decreases |s|
  {
    var i := IndexOfSpace(s);
    if i == |s| then [s] else [s[..i]] + Split(s[i + 1..])
  }

  /**
   * Go's `strings.SplitN(s, " ", n)`: at most `n` pieces, the last of which is
   * the unsplit remainder; `n == 0` gives no pieces at all.
   */
  function SplitN(s: string, n: nat): (r: seq<string>)
    decreases n
  {
    if n == 0 then []
    else
      var i := IndexOfSpace(s);
      if n == 1 || i == |s| then [s] else [s[..i]] + SplitN(s[i + 1..], n - 1)
  }

  /** Go's `strings.Join(ts, " ")`. */
  function Join(ts: seq<string>): string
  {
    if |ts| == 0 then ""
    else if |ts| == 1 then ts[0]
    else ts[0] + [Space] + Join(ts[1..])
  }

  /** A string is the part before a space, the space, and the part after it. */
  lemma AroundSpace(s: string, i: nat)
    requires i < |s| && s[i] == Space
    ensures s == s[..i] + [Space] + s[i + 1..]
  {
    AroundElement(s, i);
  }

  /** Joining a word in front of a non-empty list puts a space after it. */
  lemma JoinCons(w: string, ts: seq<string>)
    requires |ts| >= 1
    ensures Join([w] + ts) == w + [Space] + Join(ts)
  {
    DropCons(w, ts, 1);
    DropNone(ts);
  }

  lemma {:induction false} IndexOfSpaceOfWord(w: string, rest: string)
    requires NoSpace(w)
    ensures IndexOfSpace(w + [Space] + rest) == |w|
    ensures IndexOfSpace(w) == |w|
  {
    if |w| > 0 {
      DropFirstBeforeSeparator(w, Space, rest);
      IndexOfSpaceOfWord(w[1..], rest);
    }
  }

  /** A leading space-free word is the first piece of the split. */
  lemma SplitWord(w: string, rest: string)
    requires NoSpace(w)
    ensures Split(w + [Space] + rest) == [w] + Split(rest)
    ensures Split(w) == [w]
  {
    IndexOfSpaceOfWord(w, rest);
    AroundSeparator(w, Space, rest);
  }

  /** The same for the split with a limit of `n >= 2` pieces. */
  lemma SplitNWord(w: string, rest: string, n: nat)
    requires NoSpace(w) && n >= 2
    ensures SplitN(w + [Space] + rest, n) == [w] + SplitN(rest, n - 1)
  {
    IndexOfSpaceOfWord(w, rest);
    AroundSeparator(w, Space, rest);
  }

  /** A message splits into a single piece exactly when it has no space. */
  lemma SplitSingleIffNoSpace(s: string)
    ensures |Split(s)| == 1 <==> NoSpace(s)
  {
    var i := IndexOfSpace(s);
    if i < |s| {
      assert s[i] in s;
    } else {
      assert forall c :: c in s ==> exists k :: 0 <= k < |s| && s[k] == c;
    }
  }

  /** Splitting and re-joining with a single space gives back the message. */
  lemma {:induction false} JoinSplit(s: string)
    ensures Join(Split(s)) == s
    decreases |s|
  {
    var i := IndexOfSpace(s);
    if i < |s| {
      var t := s[i + 1..];
      JoinSplit(t);
      SplitStep(s);
      JoinCons(s[..i], Split(t));
      AroundSpace(s, i);
    }
  }

  /** No piece of a split contains the separator. */
  lemma {:induction false} SplitPiecesHaveNoSpace(s: string)
    ensures forall k :: 0 <= k < |Split(s)| ==> NoSpace(Split(s)[k])
    decreases |s|
  {
    var i := IndexOfSpace(s);
    if i < |s| {
      SplitPiecesHaveNoSpace(s[i + 1..]);
    }
  }

  /**
   * The converse of JoinSplit: a non-empty list of space-free words is what
   * splitting their join gives back, so Split is a bijection between strings
   * and non-empty lists of space-free words.
   */
  lemma {:induction false} SplitJoin(ts: seq<string>)
    requires |ts| >= 1
    requires forall k :: 0 <= k < |ts| ==> NoSpace(ts[k])
    ensures Split(Join(ts)) == ts
  {
    if |ts| == 1 {
      IndexOfSpaceOfWord(ts[0], "");
    } else {
      var s := Join(ts);
      IndexOfSpaceOfWord(ts[0], Join(ts[1..]));
      AroundSeparator(ts[0], Space, Join(ts[1..]));
      SplitJoin(ts[1..]);
    }
  }

  /** One step of Split at the first space. */
  lemma SplitStep(s: string)
    requires IndexOfSpace(s) < |s|
    ensures Split(s) == [s[..IndexOfSpace(s)]] + Split(s[IndexOfSpace(s) + 1..])
  {
  }

  /** With a limit of one, SplitN does not split. */
  lemma SplitNOne(s: string)
    ensures SplitN(s, 1) == [s]
  {
  }

  /** A message with no space is its own single piece, limit or not. */
  lemma SplitsNoSpace(s: string, n: nat)
    requires n >= 1 && IndexOfSpace(s) == |s|
    ensures SplitN(s, n) == [s] && Split(s) == [s]
  {
  }

  /** One step of SplitN at the first space, with a limit of at least two. */
  lemma SplitNStep(s: string, n: nat)
    requires IndexOfSpace(s) < |s| && n >= 2
    ensures SplitN(s, n) == [s[..IndexOfSpace(s)]] + SplitN(s[IndexOfSpace(s) + 1..], n - 1)
  {
  }

  /** `SplitN(s, n)` has `min(n, |Split(s)|)` pieces. */
  ghost predicate LengthIsMin(s: string, n: nat) {
    |SplitN(s, n)| == (if |Split(s)| < n then |Split(s)| else n)
  }

  lemma SplitNLengthStep(s: string, n: nat)
    requires n >= 2 && IndexOfSpace(s) < |s|
    requires LengthIsMin(s[IndexOfSpace(s) + 1..], n - 1)
    ensures LengthIsMin(s, n)
  {
    SplitStep(s);
    SplitNStep(s, n);
  }

  lemma {:induction false} SplitNLength(s: string, n: nat)
    requires n >= 1
    ensures LengthIsMin(s, n)
    decreases n
  {
    var i := IndexOfSpace(s);
    if n == 1 {
      SplitNOne(s);
    } else if i == |s| {
      SplitsNoSpace(s, n);
    } else {
      SplitNLength(s[i + 1..], n - 1);
      SplitNLengthStep(s, n);
    }
  }

  /** Every piece of `SplitN(s, n)` but the last is the piece of `Split(s)` at the same position. */
  ghost predicate PrefixIsSplit(s: string, n: nat) {
    SamePrefix(SplitN(s, n), Split(s))
  }

  lemma SplitNPrefixBase(s: string, n: nat)
    requires n == 1 || (n >= 1 && IndexOfSpace(s) == |s|)
    ensures PrefixIsSplit(s, n)
  {
    var a := Split(s);
    if n == 1 {
      SplitNOne(s);
    } else {
      SplitsNoSpace(s, n);
    }
    assert a[..0] == [];
  }

  lemma SplitNPrefixStep(s: string, n: nat, r: seq<string>, a: seq<string>)
    requires n >= 2 && IndexOfSpace(s) < |s|
    requires r == SplitN(s[IndexOfSpace(s) + 1..], n - 1) && a == Split(s[IndexOfSpace(s) + 1..])
    requires SamePrefix(r, a)
    ensures PrefixIsSplit(s, n)
  {
    SplitStep(s);
    SplitNStep(s, n);
    SamePrefixCons(s[..IndexOfSpace(s)], r, a);
  }

  lemma {:induction false} SplitNPrefix(s: string, n: nat)
    requires n >= 1
    ensures PrefixIsSplit(s, n)
    decreases n
  {
    var i := IndexOfSpace(s);
    if n == 1 || i == |s| {
      SplitNPrefixBase(s, n);
    } else {
      var t := s[i + 1..];
      SplitNPrefix(t, n - 1);
      SplitNPrefixStep(s, n, SplitN(t, n - 1), Split(t));
    }
  }

  /** The last of the pieces `r` is the join of `a` from the same position on. */
  ghost predicate LastJoins(r: seq<string>, a: seq<string>) {
    1 <= |r| <= |a| && r[|r| - 1] == Join(a[|r| - 1..])
  }

  /** Putting one word in front of both lists keeps the last-piece relation. */
  lemma LastAfterCons(w: string, r: seq<string>, a: seq<string>)
    requires LastJoins(r, a)
    ensures LastJoins([w] + r, [w] + a)
  {
    DropCons(w, a, |r|);
  }

  /** The last piece of `SplitN(s, n)` is the end of `s`, verbatim. */
  lemma {:induction false} SplitNLastIsSuffix(s: string, n: nat)
    requires n >= 1
    ensures IsSuffix(SplitN(s, n)[|SplitN(s, n)| - 1], s)
  {
    var i := IndexOfSpace(s);
    if n > 1 && i < |s| {
      var t := s[i + 1..];
      SplitNLastIsSuffix(t, n - 1);
      var r := SplitN(t, n - 1);
      assert SplitN(s, n) == [s[..i]] + r;
      assert SplitN(s, n)[|SplitN(s, n)| - 1] == r[|r| - 1];
      SuffixOfDrop(r[|r| - 1], s, i + 1);
    }
  }

  /** The last piece of `SplitN(s, n)` is the rest of `Split(s)` joined back. */
  ghost predicate LastIsRest(s: string, n: nat) {
    LastJoins(SplitN(s, n), Split(s))
  }

  /** LastIsRest with a limit of one: the only piece is the whole message. */
  lemma SplitNLastOne(s: string)
    ensures LastIsRest(s, 1)
  {
    var a := Split(s);
    SplitNOne(s);
    DropNone(a);
    JoinSplit(s);
  }

  /** LastIsRest when the message has no space left. */
  lemma SplitNLastNoSpace(s: string, n: nat)
    requires n >= 1 && IndexOfSpace(s) == |s|
    ensures LastIsRest(s, n)
  {
    SplitsNoSpace(s, n);
    DropNone([s]);
  }

  /** LastIsRest carries over from the rest after the first space. */
  lemma SplitNLastStep(s: string, n: nat, r: seq<string>, a: seq<string>)
    requires n >= 2 && IndexOfSpace(s) < |s|
    requires r == SplitN(s[IndexOfSpace(s) + 1..], n - 1) && a == Split(s[IndexOfSpace(s) + 1..])
    requires LastJoins(r, a)
    ensures LastIsRest(s, n)
  {
    SplitStep(s);
    SplitNStep(s, n);
    LastAfterCons(s[..IndexOfSpace(s)], r, a);
  }

  lemma {:induction false} SplitNLast(s: string, n: nat)
    requires n >= 1
    ensures LastIsRest(s, n)
    decreases n
  {
    var i := IndexOfSpace(s);
    if n == 1 {
      SplitNLastOne(s);
    } else if i == |s| {
      SplitNLastNoSpace(s, n);
    } else {
      var t := s[i + 1..];
      SplitNLast(t, n - 1);
      SplitNLastStep(s, n, SplitN(t, n - 1), Split(t));
    }
  }

  /**
   * `SplitN(s, n)` with `n >= 1` agrees with `Split(s)` on every piece but
   * the last, has `min(n, |Split(s)|)` pieces, and its last piece is the rest
   * of the split joined back together, internal spaces included.
   */
  lemma SplitNAgreesWithSplit(s: string, n: nat)
    requires n >= 1
    ensures |SplitN(s, n)| == (if |Split(s)| < n then |Split(s)| else n)
    ensures forall k :: 0 <= k < |SplitN(s, n)| - 1 ==> SplitN(s, n)[k] == Split(s)[k]
    ensures SplitN(s, n)[|SplitN(s, n)| - 1] == Join(Split(s)[|SplitN(s, n)| - 1..])
  {
    SplitNLength(s, n);
    SplitNLast(s, n);
    SplitNPrefix(s, n);
    forall k | 0 <= k < |SplitN(s, n)| - 1
      ensures SplitN(s, n)[k] == Split(s)[k]
    {
      SamePrefixAt(SplitN(s, n), Split(s), k);
    }
  }

  /** Splitting with a limit and re-joining gives back the message too. */
  lemma {:induction false} JoinSplitN(s: string, n: nat)
    requires n >= 1
    ensures Join(SplitN(s, n)) == s
    decreases n
  {
    var i := IndexOfSpace(s);
    if n > 1 && i < |s| {
      JoinSplitN(s[i + 1..], n - 1);
      JoinSplitNStep(s, n);
    }
  }

  lemma JoinSplitNStep(s: string, n: nat)
    requires n >= 2 && IndexOfSpace(s) < |s|
    requires Join(SplitN(s[IndexOfSpace(s) + 1..], n - 1)) == s[IndexOfSpace(s) + 1..]
    ensures Join(SplitN(s, n)) == s
  {
    var i := IndexOfSpace(s);
    var t := s[i + 1..];
    SplitNStep(s, n);
    SplitNLength(t, n - 1);
    JoinCons(s[..i], SplitN(t, n - 1));
    AroundSpace(s, i);
  }

  /** ASCII case folding: upper-case Latin letters map to lower case. */
  function Fold(c: char): (f: char)
    ensures 'A' <= c <= 'Z' ==> f as int == c as int + 32
    ensures !('A' <= c <= 'Z') ==> f == c
    ensures !('A' <= f <= 'Z')
  {
    if 'A' <= c <= 'Z' then (c as int + ('a' as int - 'A' as int)) as char else c
  }

  /** Go's `strings.EqualFold`, restricted to ASCII case folding. */
  predicate EqualFold(a: string, b: string): (r: bool)
    ensures r ==> |a| == |b|
    ensures a == b ==> r
  {
    |a| == |b| && forall k :: 0 <= k < |a| ==> Fold(a[k]) == Fold(b[k])
  }

  function Digit(d: nat): (c: char)
    requires d < 10
    ensures '0' <= c <= '9' && c as int - '0' as int == d
  {
    (d + '0' as int) as char
  }

  predicate IsDigits(s: string) {
    forall k :: 0 <= k < |s| ==> '0' <= s[k] <= '9'
  }

  /** Go's `fmt.Sprintf("%d", n)` for a non-negative integer. */
  function Decimal(n: nat): (s: string)
    ensures |s| >= 1 && IsDigits(s)
    ensures s[0] == '0' ==> n == 0
  {
    if n < 10 then [Digit(n)] else Decimal(n / 10) + [Digit(n % 10)]
  }

  /** The value a string of decimal digits denotes. */
  function ParseDecimal(s: string): nat
    requires IsDigits(s)
  {
    if |s| == 0 then 0
    else ParseDecimal(s[..|s| - 1]) * 10 + (s[|s| - 1] as int - '0' as int)
  }

  /** Reading back what `%d` printed gives the number. */
  lemma {:induction false} ParseDecimalOfDecimal(n: nat)
    ensures ParseDecimal(Decimal(n)) == n
  {
    if n >= 10 {
      var s := Decimal(n);
      assert s[..|s| - 1] == Decimal(n / 10);
      ParseDecimalOfDecimal(n / 10);
    }
  }

  /** Distinct numbers print as distinct strings. */
  lemma DecimalInjective(a: nat, b: nat)
    requires Decimal(a) == Decimal(b)
    ensures a == b
  {
    ParseDecimalOfDecimal(a);
    ParseDecimalOfDecimal(b);
  }
}

/** Converting names between camelCase and snake_case: two regular-expression passes one way, one
    pass back. Letters are ASCII. */
module CaseConversion {
  import opened Common

  function Lower(s: string): (r: string)
    ensures |r| == |s|
  {
    if s == [] then [] else [LowerChar(s[0])] + Lower(s[1..])
  }

  // ---------------------------------------------------------------- the three substitutions

  /** The length of the run of lowercase letters at the start. */
  function LowerRun(s: string): (n: nat)
    ensures n <= |s| && (forall i :: 0 <= i < n ==> IsLower(s[i])) && (n < |s| ==> !IsLower(s[n]))
  {
    if s == [] || !IsLower(s[0]) then 0 else 1 + LowerRun(s[1..])
  }

  /** The first substitution matches here: any character but a newline, a capital, a small letter. */
  predicate WordStarts(s: string) { |s| >= 3 && s[0] != '\n' && IsUpper(s[1]) && IsLower(s[2]) }

  /** `re.sub('(.)([A-Z][a-z]+)', r'\1_\2', s)`: leftmost, non-overlapping, greedy. */
  function SplitWords(s: string): string {
    if s == [] then []
    else if WordStarts(s) then
      var n := 2 + LowerRun(s[2..]);
      [s[0]] + (['_'] + ([s[1]] + (s[2..n] + SplitWords(s[n..]))))
    else [s[0]] + SplitWords(s[1..])
  }

  /** `re.sub('([a-z0-9])([A-Z])', r'\1_\2', s)`. */
  function SplitCapitals(s: string): string {
    if |s| >= 2 && (IsLower(s[0]) || IsDigit(s[0])) && IsUpper(s[1]) then
      [s[0], '_', s[1]] + SplitCapitals(s[2..])
    else if s == [] then []
    else [s[0]] + SplitCapitals(s[1..])
  }

  /** `convert_string_to_snakecase`. */
  function Snake(s: string): string { Lower(SplitCapitals(SplitWords(s))) }

  /** `re.sub('_([a-z])', upper, s)`. */
  function JoinWords(s: string): string {
    if |s| >= 2 && s[0] == '_' && IsLower(s[1]) then [UpperChar(s[1])] + JoinWords(s[2..])
    else if s == [] then []
    else [s[0]] + JoinWords(s[1..])
  }

  /** The key conversion of `convert_snakecase_to_camelcase`. */
  function Camel(s: string): string { if s != [] && s[0] == '_' then s else JoinWords(s) }

  // ---------------------------------------------------------------- where underscores go

  ghost predicate Alnum(s: string) { forall i :: 0 <= i < |s| ==> IsAlnum(s[i]) }

  /** A capital at the start of `rest` gets an underscore: it follows something other than a
      capital, or a small letter follows it. */
  predicate Marks(a: char, rest: string) {
    rest != [] && IsUpper(rest[0]) && (!IsUpper(a) || (|rest| >= 2 && IsLower(rest[1])))
  }

  function Mark(a: char, rest: string): string { if Marks(a, rest) then ['_'] else [] }

  /** One underscore before each marked capital and nowhere else. */
  function Underscored(s: string): string {
    if s == [] then [] else [s[0]] + Mark(s[0], s[1..]) + Underscored(s[1..])
  }

  lemma {:induction false} UnderscoredStep(a: char, rest: string)
    ensures Underscored([a] + rest) == [a] + Mark(a, rest) + Underscored(rest)
  {
    assert ([a] + rest)[1..] == rest;
  }

  /** The second pass puts an underscore between these two characters. */
  predicate Splits(a: char, b: char) { (IsLower(a) || IsDigit(a)) && IsUpper(b) }

  function Gap(a: char, rest: string): string { if rest != [] && Splits(a, rest[0]) then ['_'] else [] }

  /** The second pass, one character at a time. */
  lemma {:induction false} SplitCapitalsStep(a: char, rest: string)
    ensures SplitCapitals([a] + rest) == [a] + Gap(a, rest) + SplitCapitals(rest)
  {
    var s := [a] + rest;
    assert s[1..] == rest;
    if rest != [] && Splits(a, rest[0]) {
      assert s[2..] == rest[1..];
      assert SplitCapitals(rest) == [rest[0]] + SplitCapitals(rest[1..]);
      assert SplitCapitals(s) == [a, '_', rest[0]] + SplitCapitals(rest[1..]);
    } else {
      assert SplitCapitals(s) == [a] + SplitCapitals(rest);
    }
  }

  lemma {:induction false} SplitWordsHead(s: string)
    ensures (s == [] <==> SplitWords(s) == []) && (s != [] ==> SplitWords(s)[0] == s[0])
  {
  }

  lemma PrependToRun(x: char, tail: string, mark: string, u: string)
    ensures [x] + [] + (tail + mark + u) == ([x] + tail) + mark + u
  {
  }

  /** The second pass over a run of small letters. */
  lemma {:induction false} SplitCapitalsRun(run: string, rest: string)
    requires AllLower(run)
    ensures SplitCapitals(run + rest)
            == run + (if run != [] then Gap(run[|run| - 1], rest) else []) + SplitCapitals(rest)
  {
    if run == [] {
      assert run + rest == rest;
    } else if |run| == 1 {
      assert run == [run[0]];
      SplitCapitalsStep(run[0], rest);
    } else {
      var x, tail := run[0], run[1..];
      assert run == [x] + tail;
      PrependToRun(x, tail, Gap(tail[|tail| - 1], rest), SplitCapitals(rest));
      assert run + rest == [x] + (tail + rest);
      assert (tail + rest)[0] == run[1] && Gap(x, tail + rest) == [];
      SplitCapitalsStep(x, tail + rest);
      SplitCapitalsRun(tail, rest);
    }
  }

  lemma {:induction false} UnderscoredRun(run: string, rest: string)
    requires AllLower(run)
    ensures Underscored(run + rest)
            == run + (if run != [] then Mark(run[|run| - 1], rest) else []) + Underscored(rest)
  {
    if run == [] {
      assert run + rest == rest;
    } else if |run| == 1 {
      assert run == [run[0]];
      UnderscoredStep(run[0], rest);
    } else {
      var x, tail := run[0], run[1..];
      assert run == [x] + tail;
      PrependToRun(x, tail, Mark(tail[|tail| - 1], rest), Underscored(rest));
      assert run + rest == [x] + (tail + rest);
      assert (tail + rest)[0] == run[1] && Mark(x, tail + rest) == [];
      UnderscoredStep(x, tail + rest);
      UnderscoredRun(tail, rest);
    }
  }

  /** The second pass over a word that the first one splits off: any character, the new
      underscore, a capital and its small letters. */
  lemma {:induction false} SplitCapitalsWord(a: char, b: char, run: string, t: string)
    requires IsUpper(b) && run != [] && IsLower(run[0])
    ensures SplitCapitals([a] + (['_'] + ([b] + (run + t)))) == [a, '_', b] + SplitCapitals(run + t)
  {
    var x := run + t;
    SplitCapitalsStep(b, x);
    SplitCapitalsStep('_', [b] + x);
    SplitCapitalsStep(a, ['_'] + ([b] + x));
  }

  lemma {:induction false} UnderscoredWord(a: char, b: char, run: string, rest: string)
    requires IsUpper(b) && run != [] && IsLower(run[0])
    ensures Underscored([a] + ([b] + (run + rest))) == [a, '_', b] + Underscored(run + rest)
  {
    UnderscoredStep(b, run + rest);
    UnderscoredStep(a, [b] + (run + rest));
  }

  lemma {:induction false} RunStep(run: string, rest: string)
    requires AllLower(run)
    requires SplitCapitals(SplitWords(rest)) == Underscored(rest)
    requires rest == [] || !IsLower(rest[0])
    ensures SplitCapitals(run + SplitWords(rest)) == Underscored(run + rest)
  {
    SplitWordsHead(rest);
    SplitCapitalsRun(run, SplitWords(rest));
    UnderscoredRun(run, rest);
  }

  lemma {:induction false} WordStep(a: char, b: char, run: string, rest: string)
    requires IsUpper(b) && run != []
    requires AllLower(run)
    requires SplitCapitals(SplitWords(rest)) == Underscored(rest)
    requires rest == [] || !IsLower(rest[0])
    ensures SplitCapitals([a] + (['_'] + ([b] + (run + SplitWords(rest))))) == Underscored([a] + ([b] + (run + rest)))
  {
    RunStep(run, rest);
    SplitCapitalsWord(a, b, run, SplitWords(rest));
    UnderscoredWord(a, b, run, rest);
  }

  /** What the first pass makes of a word. */
  lemma {:induction false} SplitWordsWord(s: string, n: nat)
    requires WordStarts(s) && n == 2 + LowerRun(s[2..])
    ensures 2 < n <= |s|
    ensures SplitWords(s) == [s[0]] + (['_'] + ([s[1]] + (s[2..n] + SplitWords(s[n..]))))
    ensures s == [s[0]] + ([s[1]] + (s[2..n] + s[n..]))
    ensures forall i :: 0 <= i < n - 2 ==> IsLower(s[2..n][i])
    ensures n < |s| ==> !IsLower(s[n])
  {
    var run := s[2..];
    assert run[0] == s[2];
    assert forall i :: 0 <= i < n - 2 ==> s[2..n][i] == run[i];
    assert n < |s| ==> s[n] == run[n - 2];
  }

  lemma {:induction false} PlainStep(a: char, rest: string)
    requires IsAlnum(a) && !WordStarts([a] + rest)
    requires SplitCapitals(SplitWords(rest)) == Underscored(rest)
    ensures SplitCapitals([a] + SplitWords(rest)) == Underscored([a] + rest)
  {
    SplitWordsHead(rest);
    SplitCapitalsStep(a, SplitWords(rest));
    UnderscoredStep(a, rest);
  }

  /** The two passes together put one underscore before each marked capital. */
  lemma {:induction false} PassesUnderscore(s: string)
    requires Alnum(s)
    ensures SplitCapitals(SplitWords(s)) == Underscored(s)
    decreases |s|
  {
    if s != [] {
      if WordStarts(s) {
        var n := 2 + LowerRun(s[2..]);
        SplitWordsWord(s, n);
        PassesUnderscore(s[n..]);
        WordStep(s[0], s[1], s[2..n], s[n..]);
      } else {
        PassesUnderscore(s[1..]);
        assert s == [s[0]] + s[1..];
        PlainStep(s[0], s[1..]);
      }
    }
  }

  // ---------------------------------------------------------------- there and back

  /** What comes back of `s` after the character `a`: marked capitals return as capitals, other
      capitals as small letters. */
  function Returned(a: char, s: string): string
    decreases |s|
  {
    if s == [] then []
    else [if IsUpper(s[0]) && !Marks(a, s) then LowerChar(s[0]) else s[0]] + Returned(s[0], s[1..])
  }

  lemma {:induction false} LowerStep(a: char, rest: string)
    ensures Lower([a] + rest) == [LowerChar(a)] + Lower(rest)
  {
    assert ([a] + rest)[1..] == rest;
  }

  lemma {:induction false} JoinPlain(a: char, rest: string)
    requires a != '_'
    ensures JoinWords([a] + rest) == [a] + JoinWords(rest)
  {
    assert ([a] + rest)[1..] == rest;
  }

  lemma {:induction false} JoinMarked(b: char, rest: string)
    requires IsLower(b)
    ensures JoinWords(['_'] + ([b] + rest)) == [UpperChar(b)] + JoinWords(rest)
  {
    var t := ['_'] + ([b] + rest);
    assert t[2..] == rest && t[1] == b;
  }

  lemma {:induction false} JoinReturns(a: char, s: string)
    requires Alnum(s)
    ensures JoinWords(Lower(Mark(a, s) + Underscored(s))) == Returned(a, s)
    decreases |s|
  {
    if s == [] {
      assert Mark(a, s) + Underscored(s) == [];
    } else {
      var x, rest := s[0], s[1..];
      var more := Mark(x, rest) + Underscored(rest);
      JoinReturns(x, rest);
      assert Underscored(s) == [x] + more;
      LowerStep(x, more);
      if Marks(a, s) {
        assert Mark(a, s) + Underscored(s) == ['_'] + ([x] + more);
        LowerStep('_', [x] + more);
        JoinMarked(LowerChar(x), Lower(more));
      } else {
        assert Mark(a, s) + Underscored(s) == [x] + more;
        JoinPlain(LowerChar(x), Lower(more));
      }
    }
  }

  predicate SettledAt(s: string, i: nat) {
    1 <= i < |s| && IsUpper(s[i]) && IsUpper(s[i - 1]) ==> i + 1 < |s| && IsLower(s[i + 1])
  }

  /** A capital right after a capital is followed by a small letter. */
  ghost predicate CapitalsSettled(s: string) { forall i: nat :: SettledAt(s, i) }

  ghost predicate StartsSmall(s: string) { s == [] || !IsUpper(s[0]) }

  ghost predicate AllMarked(a: char, s: string)
    decreases |s|
  {
    s == [] || ((IsUpper(s[0]) ==> Marks(a, s)) && AllMarked(s[0], s[1..]))
  }

  lemma {:induction false} ReturnedSameIff(a: char, s: string)
    ensures |Returned(a, s)| == |s|
    ensures Returned(a, s) == s <==> AllMarked(a, s)
    decreases |s|
  {
    if s != [] {
      ReturnedSameIff(s[0], s[1..]);
      assert s == [s[0]] + s[1..];
      assert Returned(a, s)[1..] == Returned(s[0], s[1..]);
    }
  }

  lemma {:induction false} AllMarkedIffSettled(a: char, s: string)
    ensures AllMarked(a, s) <==> CapitalsSettled([a] + s)
    decreases |s|
  {
    if s != [] {
      AllMarkedIffSettled(s[0], s[1..]);
      assert [s[0]] + s[1..] == s;
      SettledStep(a, s);
    }
  }

  lemma SettledStep(a: char, s: string)
    requires s != []
    ensures CapitalsSettled([a] + s) <==> (IsUpper(s[0]) ==> Marks(a, s)) && CapitalsSettled(s)
  {
    var t := [a] + s;
    if CapitalsSettled(t) {
      forall i: nat
        ensures SettledAt(s, i)
      {
        assert SettledAt(t, i + 1);
      }
      assert SettledAt(t, 1);
    }
    if (IsUpper(s[0]) ==> Marks(a, s)) && CapitalsSettled(s) {
      forall i: nat
        ensures SettledAt(t, i)
      {
        if i > 1 { assert SettledAt(s, i - 1); }
      }
    }
  }

  /** An alphanumeric name that does not start with a capital comes back from snake case exactly
      if each capital right after a capital is followed by a small letter. */
  lemma NameRoundTripIff(s: string)
    requires Alnum(s) && StartsSmall(s)
    ensures Camel(Snake(s)) == s <==> CapitalsSettled(s)
  {
    if s == [] {
      PassesUnderscore(s);
    } else {
      var x, rest := s[0], s[1..];
      RoundTripReturns(s);
      ReturnedSameIff(x, rest);
      AllMarkedIffSettled(x, rest);
      assert s == [x] + rest;
      assert ([x] + Returned(x, rest))[1..] == Returned(x, rest) && s[1..] == rest;
    }
  }

  lemma RoundTripReturns(s: string)
    requires Alnum(s) && StartsSmall(s) && s != []
    ensures Camel(Snake(s)) == [s[0]] + Returned(s[0], s[1..])
  {
    PassesUnderscore(s);
    var x, rest := s[0], s[1..];
    var more := Mark(x, rest) + Underscored(rest);
    assert Underscored(s) == [x] + more;
    LowerStep(x, more);
    JoinPlain(x, Lower(more));
    JoinReturns(x, rest);
  }

  ghost predicate NoCapitals(s: string) { forall i :: 0 <= i < |s| ==> !IsUpper(s[i]) }

  lemma {:induction false} LowerHasNoCapitals(s: string)
    ensures NoCapitals(Lower(s))
  {
    if s != [] { LowerHasNoCapitals(s[1..]); }
  }

  lemma {:induction false} NoCapitalsUnchanged(s: string)
    requires NoCapitals(s)
    ensures SplitWords(s) == s && SplitCapitals(s) == s && Lower(s) == s
  {
    if s != [] {
      NoCapitalsUnchanged(s[1..]);
      assert s == [s[0]] + s[1..];
    }
  }

  /** A key that survives: a settled alphanumeric name, or one with a leading underscore and no
      capitals. */
  ghost predicate KeyOk(s: string) {
    || (Alnum(s) && StartsSmall(s) && CapitalsSettled(s))
    || (s != [] && s[0] == '_' && NoCapitals(s))
  }

  lemma KeyRoundTrip(s: string)
    requires KeyOk(s)
    ensures Camel(Snake(s)) == s
  {
    if Alnum(s) && StartsSmall(s) && CapitalsSettled(s) {
      NameRoundTripIff(s);
    } else {
      NoCapitalsUnchanged(s);
    }
  }

  /** ... so no two such keys become one. */
  lemma KeysStayApart(s: string, t: string)
    requires KeyOk(s) && KeyOk(t) && Snake(s) == Snake(t)
    ensures s == t
  {
    KeyRoundTrip(s);
    KeyRoundTrip(t);
  }

  // ---------------------------------------------------------------- trees

  const ADDITIONAL_CAMEL: string := "additional" + (['P'] + "arams")
  const ADDITIONAL_SNAKE: string := "additional" + (['_'] + (['p'] + "arams"))

  ghost predicate AllLower(s: string) { forall i :: 0 <= i < |s| ==> IsLower(s[i]) }

  lemma {:induction false} LowerOfRun(run: string, rest: string)
    requires AllLower(run)
    ensures Lower(run + rest) == run + Lower(rest)
  {
    if run == [] {
      assert run + rest == rest;
    } else {
      assert run + rest == [run[0]] + (run[1..] + rest);
      LowerStep(run[0], run[1..] + rest);
      LowerOfRun(run[1..], rest);
      assert run == [run[0]] + run[1..];
    }
  }

  /** A name of two words. */
  lemma SnakeOfTwoWords(u: string, c: char, v: string)
    requires AllLower(u) && u != [] && IsUpper(c) && AllLower(v)
    ensures KeyOk(u + ([c] + v))
    ensures Snake(u + ([c] + v)) == u + (['_'] + ([LowerChar(c)] + v))
  {
    var s := u + ([c] + v);
    assert AllLower(s[..|u|]) && AllLower(s[|u| + 1..]) && s[|u|] == c by {
      assert s[..|u|] == u && s[|u| + 1..] == v;
    }
    forall i: nat
      ensures SettledAt(s, i)
    {
    }
    UnderscoredTwoWords(u, c, v);
    PassesUnderscore(s);
    LowerOfRun(u, ['_'] + ([c] + v));
    LowerStep('_', [c] + v);
    LowerStep(c, v);
    LowerOfRun(v, []);
    assert v + [] == v;
  }

  lemma {:induction false} UnderscoredTwoWords(u: string, c: char, v: string)
    requires AllLower(u) && u != [] && IsUpper(c) && AllLower(v)
    ensures Underscored(u + ([c] + v)) == u + (['_'] + ([c] + v))
  {
    UnderscoredStep(c, v);
    UnderscoredSmall(v);
    RunThenCapital(u, [c] + v);
  }

  lemma {:induction false} RunThenCapital(u: string, w: string)
    requires AllLower(u) && u != [] && w != [] && IsUpper(w[0]) && Underscored(w) == w
    ensures Underscored(u + w) == u + (['_'] + w)
  {
    var x := u[|u| - 1];
    assert IsLower(x) && Mark(x, w) == ['_'];
    UnderscoredRun(u, w);
    AppendTwice(u, ['_'], w);
  }

  lemma AppendTwice(a: string, b: string, c: string)
    ensures a + b + c == a + (b + c)
  {
  }

  lemma {:induction false} UnderscoredSmall(v: string)
    requires AllLower(v)
    ensures Underscored(v) == v
  {
    if v != [] {
      UnderscoredSmall(v[1..]);
      assert v == [v[0]] + v[1..];
    }
  }

  lemma AdditionalConverts()
    ensures KeyOk(ADDITIONAL_CAMEL) && Snake(ADDITIONAL_CAMEL) == ADDITIONAL_SNAKE
  {
    SnakeOfTwoWords("additional", 'P', "arams");
  }
}

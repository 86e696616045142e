/**
 * The slug pattern `^[a-z0-9]+(?:-[a-z0-9]+)*$` that both form schemas test,
 * read by the automaton a regular-expression engine runs for it, and a
 * character-level description of the same language.
 */
module SlugPattern {
  import opened Text

  /** `[a-z0-9]` */
  predicate IsSlugChar(c: char)
  {
    'a' <= c <= 'z' || '0' <= c <= '9'
  }

  /** States of the matcher: a word character is required next, the last
      character ended a word (the only accepting state), or the match failed. */
  datatype MatchState = ExpectWord | InWord | Dead

  function Step(q: MatchState, c: char): MatchState
  {
    match q
    case ExpectWord => if IsSlugChar(c) then InWord else Dead
    case InWord => if IsSlugChar(c) then InWord else if c == '-' then ExpectWord else Dead
    case Dead => Dead
  }

  function Run(q: MatchState, s: string): MatchState
    decreases |s|
  {
    if s == [] then q else Run(Step(q, s[0]), s[1..])
  }

  /** `/^[a-z0-9]+(?:-[a-z0-9]+)*$/.test(s)` */
  predicate MatchesSlugRegex(s: string)
  {
    Run(ExpectWord, s) == InWord
  }

  /** Only word characters and hyphens. */
  predicate SlugAlphabet(s: string)
  {
    forall i :: 0 <= i < |s| ==> IsSlugChar(s[i]) || s[i] == '-'
  }

  /** No two hyphens in a row. */
  predicate NoDoubleHyphen(s: string)
  {
    forall i :: 0 <= i < |s| - 1 ==> !(s[i] == '-' && s[i + 1] == '-')
  }

  /** The shape of a slug: non-empty, lower-case letters, digits and single
      hyphens, no hyphen at either end. */
  predicate IsSlugShape(s: string)
  {
    |s| > 0 && SlugAlphabet(s) && NoDoubleHyphen(s) && s[0] != '-' && s[|s| - 1] != '-'
  }

  /** What the matcher accepts from a word end: the rest of the input is a
      (possibly empty) run of hyphen-led words. */
  predicate AcceptsFromWord(s: string)
  {
    SlugAlphabet(s) && NoDoubleHyphen(s) && (s != [] ==> s[|s| - 1] != '-')
  }

  lemma {:induction false} RunFromWord(s: string)
    ensures Run(InWord, s) == InWord <==> AcceptsFromWord(s)
    ensures Run(ExpectWord, s) == InWord <==> IsSlugShape(s)
    decreases |s|
  {
    if s == [] {
      return;
    }
    var c, t := s[0], s[1..];
    assert s == [c] + t;
    RunFromWord(t);
    assert Run(ExpectWord, []) != InWord;
    assert forall u :: Run(Dead, u) == Dead by {
      forall u ensures Run(Dead, u) == Dead { DeadStaysDead(u); }
    }
    if IsSlugChar(c) {
      assert Run(InWord, s) == Run(InWord, t);
      assert Run(ExpectWord, s) == Run(InWord, t);
      assert AcceptsFromWord(s) <==> AcceptsFromWord(t) by {
        if AcceptsFromWord(t) {
          assert forall i :: 1 <= i < |s| ==> s[i] == t[i - 1];
        }
      }
      assert IsSlugShape(s) <==> AcceptsFromWord(t) by {
        if AcceptsFromWord(t) {
          assert forall i :: 1 <= i < |s| ==> s[i] == t[i - 1];
        }
      }
    } else if c == '-' {
      assert Run(InWord, s) == Run(ExpectWord, t);
      assert !IsSlugShape(s);
      assert AcceptsFromWord(s) <==> IsSlugShape(t) by {
        if IsSlugShape(t) {
          assert forall i :: 1 <= i < |s| ==> s[i] == t[i - 1];
        }
        if AcceptsFromWord(s) {
          assert t != [] && t[0] != '-' by {
            if |s| > 1 { assert !(s[0] == '-' && s[1] == '-'); }
          }
        }
      }
    } else {
      assert !SlugAlphabet(s);
    }
  }

  lemma {:induction false} DeadStaysDead(s: string)
    ensures Run(Dead, s) == Dead
    decreases |s|
  {
    if s != [] {
      DeadStaysDead(s[1..]);
    }
  }

  /** The regular expression accepts exactly the strings of slug shape. */
  lemma RegexMatchesShape(s: string)
    ensures MatchesSlugRegex(s) <==> IsSlugShape(s)
  {
    RunFromWord(s);
  }

  /** Appending `-<counter>` to a slug keeps it a slug: the numbered
      candidates of the slug allocator stay in the pattern when their base is. */
  lemma NumberedSlugMatches(base: string, n: nat)
    requires MatchesSlugRegex(base)
    ensures MatchesSlugRegex(base + "-" + DecimalDigits(n))
  {
    RegexMatchesShape(base);
    var d := DecimalDigits(n);
    var s := base + "-" + d;
    assert forall i :: 0 <= i < |d| ==> IsSlugChar(d[i]);
    assert forall i :: |base| < i < |s| ==> s[i] == d[i - |base| - 1];
    assert SlugAlphabet(s);
    assert NoDoubleHyphen(s);
    RegexMatchesShape(s);
  }
}

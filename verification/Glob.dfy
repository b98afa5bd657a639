/** WildcardMatch (src/files.c): '?' stands for any character, '*' for any string, and the loop
    backtracks to the last '*' only. */
module Glob {

  /** What a pattern means. */
  predicate Matches(p: string, s: string)
    decreases |p| + |s|
  {
    if p == "" then s == ""
    else if p[0] == '*' then Matches(p[1..], s) || (s != "" && Matches(p, s[1..]))
    else s != "" && (p[0] == '?' || p[0] == s[0]) && Matches(p[1..], s[1..])
  }

  /** One-character patterns: any string, any character, this character. */
  lemma OneCharacter(c: char, s: string)
    ensures Matches("", s) <==> s == ""
    ensures Matches("*", s)
    ensures Matches("?", s) <==> |s| == 1
    ensures c != '*' && c != '?' ==> (Matches([c], s) <==> s == [c])
  {
    StarMatchesAll(s);
    assert [c][1..] == "" && "?"[1..] == "";
    if s != "" { assert s == [s[0]] + s[1..]; }
  }

  lemma {:induction false} StarMatchesAll(s: string)
    ensures Matches("*", s)
  {
    assert "*"[1..] == "";
    if s != "" { StarMatchesAll(s[1..]); }
  }

  /** A pattern of two parts matches what splits into matches of the parts. */
  lemma MatchesConcat(p: string, q: string, s: string)
    ensures Matches(p + q, s) <==> exists i :: 0 <= i <= |s| && Matches(p, s[..i]) && Matches(q, s[i..])
  {
    if Matches(p + q, s) {
      var i := MatchSplits(p, q, s);
    }
    forall i | 0 <= i <= |s| && Matches(p, s[..i]) && Matches(q, s[i..]) ensures Matches(p + q, s) {
      MatchJoins(p, q, s, i);
    }
  }

  lemma {:induction false} MatchJoins(p: string, q: string, s: string, i: nat)
    requires i <= |s| && Matches(p, s[..i]) && Matches(q, s[i..])
    ensures Matches(p + q, s)
    decreases |p| + i
  {
    if p == "" {
      assert p + q == q && s[0..] == s;
    } else {
      assert (p + q)[1..] == p[1..] + q;
      if i > 0 { assert s[..i][1..] == s[1..][..i - 1] && s[i..] == s[1..][i - 1..]; }
      if p[0] == '*' && Matches(p[1..], s[..i]) {
        MatchJoins(p[1..], q, s, i);
      } else {
        MatchJoins(if p[0] == '*' then p else p[1..], q, s[1..], i - 1);
      }
    }
  }

  lemma {:induction false} MatchSplits(p: string, q: string, s: string) returns (i: nat)
    requires Matches(p + q, s)
    ensures i <= |s| && Matches(p, s[..i]) && Matches(q, s[i..])
    decreases |p| + |s|
  {
    if p == "" {
      i := 0;
      assert p + q == q && s[0..] == s && s[..0] == "";
    } else {
      assert (p + q)[1..] == p[1..] + q;
      if p[0] == '*' && Matches(p[1..] + q, s) {
        i := MatchSplits(p[1..], q, s);
      } else {
        i := MatchSplits(if p[0] == '*' then p else p[1..], q, s[1..]);
        i := i + 1;
        assert s[..i][1..] == s[1..][..i - 1] && s[i..] == s[1..][i - 1..];
      }
    }
  }

  predicate AllStars(p: string) {
    p == "" || (p[0] == '*' && AllStars(p[1..]))
  }

  datatype Star = NoStar | Star(star: nat, ss: nat)

  /** The states of the loop: positions in pattern and string, and where to go back to. */
  ghost predicate IsState(pat: string, str: string, p: nat, s: nat, back: Star) {
    && p <= |pat| && s <= |str|
    && (back.Star? ==> back.star < p && back.ss <= s && pat[back.star] == '*')
  }

  /** What the loop returns from a state on. */
  function Run(pat: string, str: string, p: nat, s: nat, back: Star): bool
    requires IsState(pat, str, p, s, back)
    decreases if back.Star? then |pat| - back.star else |pat| + 1, if back.Star? then |str| - back.ss else 0, |pat| - p
  {
    if s == |str| then AllStars(pat[p..])
    else if p < |pat| && (pat[p] == '?' || pat[p] == str[s]) then Run(pat, str, p + 1, s + 1, back)
    else if p < |pat| && pat[p] == '*' then Run(pat, str, p + 1, s, Star(p, s))
    else if back.Star? then Run(pat, str, back.star + 1, back.ss + 1, Star(back.star, back.ss + 1))
    else false
  }

  function Returned(str: string, pat: string): bool {
    Run(pat, str, 0, 0, NoStar)
  }

  method WildcardMatch(str: string, pat: string) returns (r: bool)
    ensures r == Returned(str, pat)
    ensures r ==> Matches(pat, str)
    ensures '*' !in str ==> r == Matches(pat, str)
  {
    SoundAndComplete(pat, str);
    var p: nat, s: nat, back := 0, 0, NoStar;
    while s < |str|
      invariant IsState(pat, str, p, s, back)
      invariant Run(pat, str, p, s, back) == Returned(str, pat)
      decreases if back.Star? then |pat| - back.star else |pat| + 1, if back.Star? then |str| - back.ss else 0, |pat| - p
    {
      if p < |pat| && (pat[p] == '?' || pat[p] == str[s]) {
        p, s := p + 1, s + 1;
      } else if p < |pat| && pat[p] == '*' {
        back := Star(p, s);
        p := p + 1;
      } else if back.Star? {
        p, s := back.star + 1, back.ss + 1;
        back := Star(back.star, s);
      } else {
        return false;
      }
    }
    while p < |pat| && pat[p] == '*'
      invariant p <= |pat| && AllStars(pat[p..]) == Returned(str, pat)
    {
      assert pat[p..][1..] == pat[p + 1..];
      p := p + 1;
    }
    r := p == |pat|;
  }

  // ---------------------------------------------------------------- facts about patterns

  lemma {:induction false} StarsMatchNothing(p: string)
    ensures Matches(p, "") <==> AllStars(p)
  {
    if p != "" { StarsMatchNothing(p[1..]); }
  }

  /** The pattern from position p on, one step at a time. */
  lemma MatchesHere(pat: string, str: string, p: nat, s: nat)
    requires p < |pat| && s <= |str|
    ensures pat[p] == '*' ==>
              (Matches(pat[p..], str[s..]) <==>
               Matches(pat[p + 1..], str[s..]) || (s < |str| && Matches(pat[p..], str[s + 1..])))
    ensures pat[p] != '*' ==>
              (Matches(pat[p..], str[s..]) <==>
               s < |str| && (pat[p] == '?' || pat[p] == str[s]) && Matches(pat[p + 1..], str[s + 1..]))
  {
    assert pat[p..][1..] == pat[p + 1..];
    if s < |str| { assert str[s..][1..] == str[s + 1..]; }
  }

  /** A leading star also matches in front of whatever it matches. */
  lemma {:induction false} StarAbsorbs(pat: string, str: string, p: nat, s: nat, t: nat)
    requires p < |pat| && pat[p] == '*' && s <= t <= |str| && Matches(pat[p..], str[t..])
    ensures Matches(pat[p..], str[s..])
    decreases t - s
  {
    if s < t {
      StarAbsorbs(pat, str, p, s + 1, t);
      MatchesHere(pat, str, p, s);
    }
  }

  /** A stretch of a pattern without stars takes exactly as many characters as it is long. */
  lemma {:induction false} PeelPlain(pat: string, str: string, p: nat, n: nat, s: nat)
    requires p + n <= |pat| && s <= |str| && '*' !in pat[p..p + n] && Matches(pat[p..], str[s..])
    ensures s + n <= |str| && Matches(pat[p + n..], str[s + n..])
    decreases n
  {
    if n > 0 {
      assert pat[p] == pat[p..p + n][0];
      MatchesHere(pat, str, p, s);
      assert pat[p + 1..p + n] == pat[p..p + n][1..];
      PeelPlain(pat, str, p + 1, n - 1, s + 1);
    }
  }

  /** The last star matches the pattern behind it at some position. */
  lemma {:induction false} SomePosition(pat: string, str: string, p: nat, s: nat) returns (t: nat)
    requires p < |pat| && pat[p] == '*' && s <= |str| && Matches(pat[p..], str[s..])
    ensures s <= t <= |str| && Matches(pat[p + 1..], str[t..])
    decreases |str| - s
  {
    MatchesHere(pat, str, p, s);
    if Matches(pat[p + 1..], str[s..]) {
      t := s;
    } else {
      t := SomePosition(pat, str, p, s + 1);
    }
  }

  // ---------------------------------------------------------------- soundness and completeness

  /** The alternatives that backtracking has still to try. */
  ghost predicate Later(pat: string, str: string, back: Star)
    requires back.Star? ==> back.star <= |pat| && back.ss <= |str|
  {
    back.Star? && back.ss < |str| && Matches(pat[back.star..], str[back.ss + 1..])
  }

  /** The loop never returns true for a string that does not match. */
  lemma {:induction false} Sound(pat: string, str: string, p: nat, s: nat, back: Star)
    requires IsState(pat, str, p, s, back) && Run(pat, str, p, s, back)
    ensures Matches(pat[p..], str[s..]) || Later(pat, str, back)
    decreases if back.Star? then |pat| - back.star else |pat| + 1, if back.Star? then |str| - back.ss else 0, |pat| - p
  {
    if p < |pat| { MatchesHere(pat, str, p, s); }
    if s == |str| {
      StarsMatchNothing(pat[p..]);
    } else if p < |pat| && (pat[p] == '?' || pat[p] == str[s]) {
      Sound(pat, str, p + 1, s + 1, back);
      if pat[p] == '*' { MatchesHere(pat, str, p, s + 1); }
    } else if p < |pat| && pat[p] == '*' {
      Sound(pat, str, p + 1, s, Star(p, s));
    } else if back.Star? {
      Sound(pat, str, back.star + 1, back.ss + 1, Star(back.star, back.ss + 1));
      MatchesHere(pat, str, back.star, back.ss + 1);
    }
  }

  /** Since the last star, the loop has matched a stretch of the pattern without stars. */
  ghost predicate PlainSinceStar(pat: string, p: nat, s: nat, back: Star)
    requires p <= |pat| && (back.Star? ==> back.star < p)
  {
    back.Star? ==> '*' !in pat[back.star + 1..p] && s - back.ss == p - back.star - 1
  }

  /** Nothing is lost by forgetting an earlier star: if going back to it would lead to a match, then
      what follows the present star also matches from here. */
  lemma LaterMeansHere(pat: string, str: string, p: nat, s: nat, back: Star)
    requires IsState(pat, str, p, s, back) && PlainSinceStar(pat, p, s, back) && Later(pat, str, back)
    ensures s < |str|
    ensures p < |pat| && pat[p] == '*' ==> Matches(pat[p..], str[s..])
  {
    var t := SomePosition(pat, str, back.star, back.ss + 1);
    var n := p - back.star - 1;
    PeelPlain(pat, str, back.star + 1, n, t);
    if p < |pat| && pat[p] == '*' {
      StarAbsorbs(pat, str, p, s, t + n);
    }
  }

  /** On strings without '*' the loop finds every match. */
  lemma {:induction false} Complete(pat: string, str: string, p: nat, s: nat, back: Star)
    requires IsState(pat, str, p, s, back) && PlainSinceStar(pat, p, s, back) && '*' !in str
    ensures Matches(pat[p..], str[s..]) || Later(pat, str, back) ==> Run(pat, str, p, s, back)
    decreases if back.Star? then |pat| - back.star else |pat| + 1, if back.Star? then |str| - back.ss else 0, |pat| - p
  {
    if p < |pat| { MatchesHere(pat, str, p, s); }
    if Later(pat, str, back) { LaterMeansHere(pat, str, p, s, back); }
    if s == |str| {
      StarsMatchNothing(pat[p..]);
    } else if p < |pat| && (pat[p] == '?' || pat[p] == str[s]) {
      assert str[s] in str;
      assert back.Star? ==> pat[back.star + 1..p + 1] == pat[back.star + 1..p] + [pat[p]];
      Complete(pat, str, p + 1, s + 1, back);
    } else if p < |pat| && pat[p] == '*' {
      Complete(pat, str, p + 1, s, Star(p, s));
    } else if back.Star? {
      Complete(pat, str, back.star + 1, back.ss + 1, Star(back.star, back.ss + 1));
      MatchesHere(pat, str, back.star, back.ss + 1);
    }
  }

  // ---------------------------------------------------------------- strings with a star

  function Questions(n: nat): string {
    seq(n, _ => '?')
  }

  lemma {:induction false} QuestionsMatch(s: string)
    ensures Matches(Questions(|s|), s)
  {
    if s != "" {
      QuestionsMatch(s[1..]);
      assert Questions(|s|)[1..] == Questions(|s| - 1);
    }
  }

  /** While the pattern has question marks and the string has characters, both advance. */
  lemma {:induction false} RunQuestions(pat: string, str: string, p: nat, s: nat, n: nat)
    requires p + n <= |pat| && s + n <= |str| && forall i :: p <= i < p + n ==> pat[i] == '?'
    ensures Run(pat, str, p, s, NoStar) == Run(pat, str, p + n, s + n, NoStar)
    decreases n
  {
    if n > 0 { RunQuestions(pat, str, p + 1, s + 1, n - 1); }
  }

  /** A pattern that the loop gets wrong on a string with a star at position i: it takes the
      pattern's star for that character, and has one question mark too many in the end. */
  lemma StarInStringFails(str: string, i: nat) returns (pat: string)
    requires i < |str| && str[i] == '*'
    ensures Matches(pat, str) && !Returned(str, pat)
  {
    var n := |str| - i;
    pat := Questions(i) + ("*" + Questions(n));
    RunQuestions(pat, str, 0, 0, i);
    RunQuestions(pat, str, i + 1, i + 1, n - 1);
    assert pat[|pat| - 1..][0] == '?';
    QuestionsMatch(str[i..]);
    assert ("*" + Questions(n))[1..] == Questions(n);
    PrependQuestions(i, "*" + Questions(n), str);
  }

  lemma {:induction false} PrependQuestions(n: nat, rest: string, s: string)
    requires n <= |s| && Matches(rest, s[n..])
    ensures Matches(Questions(n) + rest, s)
  {
    if n == 0 {
      assert Questions(0) + rest == rest && s[0..] == s;
    } else {
      assert (Questions(n) + rest)[1..] == Questions(n - 1) + rest && s[1..][n - 1..] == s[n..];
      PrependQuestions(n - 1, rest, s[1..]);
    }
  }

  /** The loop is right about a string for every pattern exactly when the string has no '*' in it. */
  lemma MatchIsExactIffNoStar(str: string)
    ensures (forall pat: string :: Returned(str, pat) == Matches(pat, str)) <==> '*' !in str
  {
    if '*' in str {
      var i :| 0 <= i < |str| && str[i] == '*';
      var pat := StarInStringFails(str, i);
    } else {
      forall pat: string ensures Returned(str, pat) == Matches(pat, str) {
        SoundAndComplete(pat, str);
      }
    }
  }

  lemma SoundAndComplete(pat: string, str: string)
    ensures Returned(str, pat) ==> Matches(pat, str)
    ensures '*' !in str ==> Returned(str, pat) == Matches(pat, str)
  {
    assert pat[0..] == pat && str[0..] == str;
    if Returned(str, pat) { Sound(pat, str, 0, 0, NoStar); }
    if '*' !in str { Complete(pat, str, 0, 0, NoStar); }
  }
}

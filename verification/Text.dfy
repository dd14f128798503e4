/** Taking white space off both ends of a text; which characters are white space is up to the caller. */
module Text {

  function TrimStart(s: string, blank: char -> bool): string {
    if s != "" && blank(s[0]) then TrimStart(s[1..], blank) else s
  }

  function TrimEnd(s: string, blank: char -> bool): string {
    if s != "" && blank(s[|s| - 1]) then TrimEnd(s[..|s| - 1], blank) else s
  }

  function Trimmed(s: string, blank: char -> bool): string {
    TrimEnd(TrimStart(s, blank), blank)
  }

  // No blank at either end.
  predicate IsTrim(s: string, blank: char -> bool) {
    s != "" ==> !blank(s[0]) && !blank(s[|s| - 1])
  }

  lemma {:induction false} TrimBlanks(before: string, s: string, after: string, blank: char -> bool)
    requires (forall c :: c in before ==> blank(c)) && (forall c :: c in after ==> blank(c))
    requires s != "" && IsTrim(s, blank)
    ensures Trimmed(before + s + after, blank) == s
    decreases |before|
  {
    var whole := before + s + after;
    if before != "" {
      assert whole[0] == before[0] && whole[1..] == before[1..] + s + after;
      TrimBlanks(before[1..], s, after, blank);
    } else {
      assert whole == s + after;
      TrimEndBlanks(s, after, blank);
    }
  }

  lemma {:induction false} TrimEndBlanks(s: string, after: string, blank: char -> bool)
    requires (forall c :: c in after ==> blank(c)) && s != "" && !blank(s[|s| - 1])
    ensures TrimEnd(s + after, blank) == s
    decreases |after|
  {
    var whole := s + after;
    if after != "" {
      assert whole[|whole| - 1] == after[|after| - 1] && whole[..|whole| - 1] == s + after[..|after| - 1];
      TrimEndBlanks(s, after[..|after| - 1], blank);
    } else {
      assert whole == s;
    }
  }

  lemma {:induction false} TrimmedIsTrim(s: string, blank: char -> bool)
    ensures IsTrim(Trimmed(s, blank), blank)
    decreases |s|
  {
    if s != "" && blank(s[0]) {
      TrimmedIsTrim(s[1..], blank);
    } else {
      TrimEndKeepsStart(s, blank);
    }
  }

  lemma {:induction false} TrimEndKeepsStart(s: string, blank: char -> bool)
    requires s != "" ==> !blank(s[0])
    ensures IsTrim(TrimEnd(s, blank), blank)
    decreases |s|
  {
    if s != "" && blank(s[|s| - 1]) {
      TrimEndKeepsStart(s[..|s| - 1], blank);
    }
  }
}

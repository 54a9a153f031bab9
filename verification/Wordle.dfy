/** Two-pass Wordle scoring, for words of any equal length. */
module Wordle {

  datatype Score = Correct | Partial | Wrong

  function CountIn(s: string, c: char): nat {
    if s == "" then 0 else CountIn(s[..|s| - 1], c) + (if s[|s| - 1] == c then 1 else 0)
  }

  /** Copies of c among the first n target letters that are not matched in place. */
  function Unmatched(guess: string, target: string, n: nat, c: char): nat
    requires n <= |guess| == |target|
  {
    if n == 0 then 0
    else Unmatched(guess, target, n - 1, c) + (if guess[n - 1] != target[n - 1] && target[n - 1] == c then 1 else 0)
  }

  /** Earlier guesses of c, among the first n letters, that are not matched in place. */
  function Missed(guess: string, target: string, n: nat, c: char): nat
    requires n <= |guess| == |target|
  {
    if n == 0 then 0
    else Missed(guess, target, n - 1, c) + (if guess[n - 1] != target[n - 1] && guess[n - 1] == c then 1 else 0)
  }

  /** The rule: a letter in place is correct; another is partial while earlier misses of the letter are
      fewer than its unmatched copies in the target. */
  function Rule(guess: string, target: string, i: nat): Score
    requires i < |guess| == |target|
  {
    if guess[i] == target[i] then Correct
    else if Missed(guess, target, i, guess[i]) < Unmatched(guess, target, |target|, guess[i]) then Partial
    else Wrong
  }

  method IndexOf(s: string, c: char) returns (n: int)
    ensures -1 <= n < |s|
    ensures n == -1 ==> CountIn(s, c) == 0
    ensures n >= 0 ==> s[n] == c && forall i :: 0 <= i < n ==> s[i] != c
  {
    for i := 0 to |s|
      invariant CountIn(s[..i], c) == 0 && forall j :: 0 <= j < i ==> s[j] != c
    {
      assert s[..i + 1][..i] == s[..i];
      if s[i] == c {
        return i;
      }
    }
    assert s[..|s|] == s;
    return -1;
  }

  lemma CountRemoved(s: string, n: nat, c: char)
    requires n < |s|
    ensures CountIn(s[..n] + s[n + 1..], c) == CountIn(s, c) - (if s[n] == c then 1 else 0)
  {
    var rest := s[n + 1..];
    assert s == s[..n] + [s[n]] + rest;
    CountAppend(s[..n], rest, c);
    CountAppend(s[..n] + [s[n]], rest, c);
    CountAppend(s[..n], [s[n]], c);
    assert CountIn([s[n]], c) == if s[n] == c then 1 else 0 by {
      assert [s[n]][..0] == "";
    }
  }

  lemma CountAppend(s: string, t: string, c: char)
    ensures CountIn(s + t, c) == CountIn(s, c) + CountIn(t, c)
  {
    if t == "" {
      assert s + t == s;
    } else {
      assert (s + t)[..|s + t| - 1] == s + t[..|t| - 1];
      CountAppend(s, t[..|t| - 1], c);
    }
  }

  function Min(a: int, b: int): int { if a < b then a else b }

  /** The pool holds what the target offers: while it is filled, and while misses draw on it. */
  ghost predicate Filled(guess: string, target: string, i: nat, pool: string)
    requires i <= |guess| == |target|
  {
    forall c :: CountIn(pool, c) == Unmatched(guess, target, i, c)
  }

  ghost predicate Drawn(guess: string, target: string, i: nat, pool: string)
    requires i <= |guess| == |target|
  {
    forall c :: CountIn(pool, c) ==
      Unmatched(guess, target, |target|, c) - Min(Missed(guess, target, i, c), Unmatched(guess, target, |target|, c))
  }

  lemma Fill(guess: string, target: string, i: nat, pool: string)
    requires i < |guess| == |target| && Filled(guess, target, i, pool)
    ensures Filled(guess, target, i + 1, if guess[i] == target[i] then pool else pool + [target[i]])
  {
    var grown := if guess[i] == target[i] then pool else pool + [target[i]];
    forall c ensures CountIn(grown, c) == Unmatched(guess, target, i + 1, c) {
      CountSnoc(pool, target[i], c);
    }
  }

  lemma CountSnoc(s: string, d: char, c: char)
    ensures CountIn(s + [d], c) == CountIn(s, c) + (if d == c then 1 else 0)
  {
    assert (s + [d])[..|s|] == s;
  }

  lemma MissedStep(guess: string, target: string, i: nat, c: char)
    requires i < |guess| == |target|
    ensures Missed(guess, target, i + 1, c) ==
              Missed(guess, target, i, c) + (if guess[i] != target[i] && guess[i] == c then 1 else 0)
  {
  }

  lemma Draw(guess: string, target: string, i: nat, pool: string, idx: int)
    requires i < |guess| == |target| && guess[i] != target[i] && Drawn(guess, target, i, pool)
    requires -1 <= idx < |pool|
    requires if idx == -1 then CountIn(pool, guess[i]) == 0 else pool[idx] == guess[i]
    ensures Drawn(guess, target, i + 1, if idx == -1 then pool else pool[..idx] + pool[idx + 1..])
    ensures Rule(guess, target, i) == if idx == -1 then Wrong else Partial
  {
    hide CountIn, Unmatched, Missed;
    var rest := if idx == -1 then pool else pool[..idx] + pool[idx + 1..];
    forall c
      ensures CountIn(rest, c) == Unmatched(guess, target, |target|, c)
                - Min(Missed(guess, target, i + 1, c), Unmatched(guess, target, |target|, c))
    {
      MissedStep(guess, target, i, c);
      if idx >= 0 {
        CountRemoved(pool, idx, c);
      }
    }
    if idx >= 0 {
      CountRemoved(pool, idx, guess[i]);
    }
  }

  lemma Skip(guess: string, target: string, i: nat, pool: string)
    requires i < |guess| == |target| && guess[i] == target[i] && Drawn(guess, target, i, pool)
    ensures Drawn(guess, target, i + 1, pool)
  {
  }

  /** Both passes: matches in place first, then the rest against the pool of unmatched target letters. */
  method CompareWords(guess: string, target: string) returns (out: seq<Score>)
    requires |guess| == |target|
    ensures |out| == |guess|
    ensures forall i :: 0 <= i < |out| ==> out[i] == Rule(guess, target, i)
  {
    hide CountIn, Filled, Drawn, Rule;
    var n := |guess|;
    var scores := new Score[n](_ => Wrong);
    var pool := "";
    StartFilled(guess, target);
    for i := 0 to n
      invariant forall j :: 0 <= j < i ==> (scores[j] == Correct <==> guess[j] == target[j])
      invariant Filled(guess, target, i, pool)
    {
      Fill(guess, target, i, pool);
      if guess[i] == target[i] {
        scores[i] := Correct;
      } else {
        scores[i] := Wrong;
        pool := pool + [target[i]];
      }
    }
    FilledIsDrawn(guess, target, pool);
    for i := 0 to n
      invariant forall j :: 0 <= j < i ==> scores[j] == Rule(guess, target, j)
      invariant forall j :: i <= j < n ==> (scores[j] == Correct <==> guess[j] == target[j])
      invariant Drawn(guess, target, i, pool)
    {
      if scores[i] == Correct {
        Skip(guess, target, i, pool);
        InPlaceRule(guess, target, i);
        continue;
      }
      var idx := IndexOf(pool, guess[i]);
      Draw(guess, target, i, pool, idx);
      if idx >= 0 {
        pool := pool[..idx] + pool[idx + 1..];
        scores[i] := Partial;
      } else {
        scores[i] := Wrong;
      }
    }
    return scores[..];
  }

  lemma InPlaceRule(guess: string, target: string, i: nat)
    requires i < |guess| == |target| && guess[i] == target[i]
    ensures Rule(guess, target, i) == Correct
  {
  }

  lemma StartFilled(guess: string, target: string)
    requires |guess| == |target|
    ensures Filled(guess, target, 0, "")
  {
  }

  lemma FilledIsDrawn(guess: string, target: string, pool: string)
    requires |guess| == |target| && Filled(guess, target, |target|, pool)
    ensures Drawn(guess, target, 0, pool)
  {
  }

  // ----- What the rule gives per letter -----

  /** Letters c among the first n that score correct or partial. */
  function Credited(guess: string, target: string, n: nat, c: char): nat
    requires n <= |guess| == |target|
  {
    if n == 0 then 0
    else Credited(guess, target, n - 1, c) + (if guess[n - 1] == c && Rule(guess, target, n - 1) != Wrong then 1 else 0)
  }

  function InPlace(guess: string, target: string, n: nat, c: char): nat
    requires n <= |guess| == |target|
  {
    if n == 0 then 0
    else InPlace(guess, target, n - 1, c) + (if guess[n - 1] == target[n - 1] == c then 1 else 0)
  }

  lemma CreditedSoFar(guess: string, target: string, n: nat, c: char)
    requires n <= |guess| == |target|
    ensures Credited(guess, target, n, c) ==
              InPlace(guess, target, n, c) + Min(Missed(guess, target, n, c), Unmatched(guess, target, |target|, c))
  {
    if n > 0 {
      CreditedSoFar(guess, target, n - 1, c);
    }
  }

  lemma CountsSplit(guess: string, target: string, n: nat, c: char)
    requires n <= |guess| == |target|
    ensures CountIn(guess[..n], c) == InPlace(guess, target, n, c) + Missed(guess, target, n, c)
    ensures CountIn(target[..n], c) == InPlace(guess, target, n, c) + Unmatched(guess, target, n, c)
  {
    if n > 0 {
      CountsSplit(guess, target, n - 1, c);
      assert guess[..n][..n - 1] == guess[..n - 1] && target[..n][..n - 1] == target[..n - 1];
    }
  }

  /** A letter is credited as often as both words have it: duplicates are neither lost nor overpaid. */
  lemma {:induction false} CreditIsMinimum(guess: string, target: string, c: char)
    requires |guess| == |target|
    ensures Credited(guess, target, |guess|, c) == Min(CountIn(guess, c), CountIn(target, c))
  {
    CreditedSoFar(guess, target, |guess|, c);
    CountsSplit(guess, target, |guess|, c);
    assert guess[..|guess|] == guess && target[..|target|] == target;
  }
}

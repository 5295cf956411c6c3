/** What a device answers when it is asked whether something has worked or there is room: any sequence of answers. */
module Answers {
  /** Some question from a up to b was answered no. */
  ghost predicate SaidNo(answers: nat -> bool, a: nat, b: nat) {
    exists i :: a <= i < b && !answers(i)
  }

  ghost predicate AllYes(answers: nat -> bool, a: nat, b: nat) {
    forall i :: a <= i < b ==> answers(i)
  }

  lemma SaidNoWithin(answers: nat -> bool, a: nat, b: nat, a': nat, b': nat)
    requires SaidNo(answers, a, b) && a' <= a && b <= b'
    ensures SaidNo(answers, a', b') && !AllYes(answers, a', b')
  {
    var i :| a <= i < b && !answers(i);
    assert a' <= i < b';
  }

  lemma NotBoth(answers: nat -> bool, a: nat, b: nat)
    ensures AllYes(answers, a, b) ==> !SaidNo(answers, a, b)
  {
  }

  lemma AllYesParts(answers: nat -> bool, a: nat, b: nat, c: nat)
    requires a <= b <= c
    ensures AllYes(answers, a, c) ==> AllYes(answers, a, b) && AllYes(answers, b, c)
  {
  }

  lemma AllYesNone(answers: nat -> bool, a: nat)
    ensures AllYes(answers, a, a)
  {
  }

  lemma AllYesMore(answers: nat -> bool, a: nat, b: nat)
    requires a <= b
    ensures AllYes(answers, a, b) ==> if answers(b) then AllYes(answers, a, b + 1) else SaidNo(answers, a, b + 1)
  {
  }

  /** Failures happen only where an answer was no. */
  ghost predicate Blames(answers: nat -> bool, asked: nat, failures: nat, asked': nat, failures': nat) {
    asked <= asked' && failures <= failures' && (failures < failures' ==> SaidNo(answers, asked, asked'))
  }

  lemma BlamesNothing(answers: nat -> bool, asked: nat, failures: nat)
    ensures Blames(answers, asked, failures, asked, failures)
  {
  }

  lemma BlamesMore(answers: nat -> bool, a0: nat, f0: nat, a1: nat, a2: nat, f: nat)
    requires Blames(answers, a0, f0, a1, f) && a1 <= a2
    ensures Blames(answers, a0, f0, a2, f) && a0 <= a2 && f0 <= f
  {
    if f0 < f { SaidNoWithin(answers, a0, a1, a0, a2); }
  }

  lemma BlamesTwice(answers: nat -> bool, a0: nat, f0: nat, a1: nat, f1: nat, a2: nat, f2: nat)
    requires Blames(answers, a0, f0, a1, f1) && Blames(answers, a1, f1, a2, f2)
    ensures Blames(answers, a0, f0, a2, f2) && a0 <= a2 && f0 <= f1 <= f2
  {
    if f0 < f1 {
      SaidNoWithin(answers, a0, a1, a0, a2);
    } else if f1 < f2 {
      SaidNoWithin(answers, a1, a2, a0, a2);
    }
  }
}

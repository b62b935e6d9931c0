/** What readers and the proofs about them share. */
module Reading {

  /** A piece of what was read, and the position behind it. */
  datatype Read<T> = Read(value: T, next: nat)

  /** `w` stands in `s` at position `i`. */
  ghost predicate StandsAt<T>(w: seq<T>, s: seq<T>, i: nat) {
    i + |w| <= |s| && s[i..i + |w|] == w
  }

  lemma StandsApart<T>(a: seq<T>, b: seq<T>, s: seq<T>, i: nat)
    requires StandsAt(a + b, s, i)
    ensures StandsAt(a, s, i) && StandsAt(b, s, i + |a|)
    ensures a != [] ==> s[i] == a[0]
  {
    var all := s[i..i + |a + b|];
    assert s[i..i + |a|] == all[..|a|] == a;
    assert s[i + |a|..i + |a| + |b|] == all[|a|..] == b;
    assert a != [] ==> s[i] == s[i..i + |a|][0];
  }

  /** Two pieces with one element between them. */
  lemma StandsAround<T>(a: seq<T>, sep: T, b: seq<T>, s: seq<T>, i: nat)
    requires StandsAt(a + ([sep] + b), s, i)
    ensures i + |a| < |s| && StandsAt(a, s, i) && s[i + |a|] == sep && StandsAt(b, s, i + |a| + 1)
  {
    hide StandsAt;
    StandsApart(a, [sep] + b, s, i);
    StandsApart([sep], b, s, i + |a|);
    StandsWithin(b, s, i + |a| + 1);
  }

  lemma StandsElement<T>(w: seq<T>, s: seq<T>, i: nat, k: nat)
    requires StandsAt(w, s, i) && k < |w|
    ensures i + k < |s| && s[i + k] == w[k]
  {
    assert s[i..i + |w|][k] == w[k];
  }

  lemma StandsWhole<T>(s: seq<T>)
    ensures StandsAt(s, s, 0)
  {
    assert s[0..|s|] == s;
  }

  lemma StandsWithin<T>(w: seq<T>, s: seq<T>, i: nat)
    requires StandsAt(w, s, i)
    ensures i + |w| <= |s|
  {}

  lemma Regroup<T>(a: seq<T>, b: seq<T>, c: seq<T>)
    ensures (a + b) + c == a + (b + c)
  {}
}

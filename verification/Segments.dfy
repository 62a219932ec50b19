/** Stretches of a sequence, for reading back what was printed. */
module Segments {

  /** The items of `t` stand at `i`. */
  ghost predicate Here<T>(s: seq<T>, i: nat, t: seq<T>) {
    i + |t| <= |s| && s[i..i + |t|] == t
  }

  lemma HereSplit<T>(s: seq<T>, i: nat, a: seq<T>, b: seq<T>)
    requires Here(s, i, a + b)
    ensures Here(s, i, a) && Here(s, i + |a|, b)
  {
    var t := s[i..i + |a| + |b|];
    assert t == a + b;
    assert t[..|a|] == a && t[|a|..] == b;
    assert s[i..i + |a|] == t[..|a|];
    assert s[i + |a|..i + |a| + |b|] == t[|a|..];
  }

  lemma HereFits<T>(s: seq<T>, i: nat, t: seq<T>)
    requires Here(s, i, t)
    ensures i + |t| <= |s|
  {
  }

  lemma HereAt<T>(s: seq<T>, i: nat, t: seq<T>)
    requires Here(s, i, t)
    ensures forall k | 0 <= k < |t| :: s[i + k] == t[k]
  {
    forall k | 0 <= k < |t| ensures s[i + k] == t[k] {
      assert s[i..i + |t|][k] == s[i + k];
    }
  }
}

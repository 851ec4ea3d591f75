/** Suffix facts about sequences of lines, shared by the packer and the benchmark handler. */
module LineSequences {

  /** `a` is a tail of `b`. */
  ghost predicate IsSuffix(a: seq<string>, b: seq<string>) {
    |a| <= |b| && b[|b| - |a|..] == a
  }

  lemma SuffixRefl(a: seq<string>)
    ensures IsSuffix(a, a)
  {
    assert a[0..] == a;
  }

  lemma SuffixSnoc(a: seq<string>, b: seq<string>, x: string)
    requires IsSuffix(a, b)
    ensures IsSuffix(a + [x], b + [x])
  {
    assert (b + [x])[|b + [x]| - |a + [x]|..] == b[|b| - |a|..] + [x];
  }

  lemma SuffixTrans(a: seq<string>, b: seq<string>, c: seq<string>)
    requires IsSuffix(a, b) && IsSuffix(b, c)
    ensures IsSuffix(a, c)
  {
    assert c[|c| - |a|..] == c[|c| - |b|..][|b| - |a|..];
  }
}

/**
  Order tokens: byte strings compared the way every backend compares its binary
  column, byte by byte with a proper prefix first. A missing token (SQL NULL, or
  no row at all) sorts below every token.
 */
module OrderTokens {
  import opened Basics

  type Token = seq<Byte>

  predicate Less(a: Token, b: Token) {
    b != [] && (a == [] || a[0] < b[0] || (a[0] == b[0] && Less(a[1..], b[1..])))
  }

  /** The tokens agree before position `n`, where `a` ends or has the lower byte. */
  ghost predicate LowerFrom(a: Token, b: Token, n: nat) {
    n <= |a| && n < |b| && a[..n] == b[..n] && (n == |a| || a[n] < b[n])
  }

  /** A token is less exactly when, at the first difference, it ends or has the lower byte. */
  lemma {:induction false} LessExactly(a: Token, b: Token)
    ensures Less(a, b) <==> exists n: nat :: LowerFrom(a, b, n)
  {
    if b == [] {
    } else if a == [] || a[0] < b[0] {
      assert LowerFrom(a, b, 0);
    } else if a[0] == b[0] {
      LessExactly(a[1..], b[1..]);
      if n: nat :| LowerFrom(a[1..], b[1..], n) {
        assert a[..n + 1] == [a[0]] + a[1..][..n] && b[..n + 1] == [b[0]] + b[1..][..n];
        assert LowerFrom(a, b, n + 1);
      }
      if n: nat :| LowerFrom(a, b, n) {
        assert n > 0;
        assert a[1..][..n - 1] == a[..n][1..] && b[1..][..n - 1] == b[..n][1..];
        assert LowerFrom(a[1..], b[1..], n - 1);
      }
    } else {
      forall n: nat ensures !LowerFrom(a, b, n) {
        if 0 < n <= |a| && n < |b| { assert a[..n][0] != b[..n][0]; }
      }
    }
  }

  lemma {:induction false} Trichotomy(a: Token, b: Token)
    ensures Less(a, b) || a == b || Less(b, a)
  {
    if a != [] && b != [] && a[0] == b[0] {
      Trichotomy(a[1..], b[1..]);
      assert a == [a[0]] + a[1..] && b == [b[0]] + b[1..];
    }
  }

  lemma {:induction false} Asymmetric(a: Token, b: Token)
    requires Less(a, b)
    ensures !Less(b, a) && a != b
  {
    if a != [] && a[0] == b[0] {
      Asymmetric(a[1..], b[1..]);
    }
  }

  lemma {:induction false} Transitive(a: Token, b: Token, c: Token)
    requires Less(a, b) && Less(b, c)
    ensures Less(a, c)
  {
    if a != [] && a[0] == b[0] && b[0] == c[0] {
      Transitive(a[1..], b[1..], c[1..]);
    }
  }

  /** `m < t` for a watermark `m` that may be absent. */
  predicate Below(m: Option<Token>, t: Token) {
    m.None? || Less(m.value, t)
  }

  function Later(a: Option<Token>, b: Option<Token>): Option<Token> {
    if a.None? then b
    else if b.None? then a
    else if Less(a.value, b.value) then b else a
  }

  /** If a watermark is not below `t`, it is not below anything that `t` is not below. */
  lemma NotBelowTrans(m: Option<Token>, t: Token, u: Token)
    requires !Below(m, t) && !Less(t, u)
    ensures !Below(m, u)
  {
    if Below(m, u) {
      Trichotomy(t, u);
      Trichotomy(m.value, t);
      if Less(u, t) {
        Transitive(m.value, u, t);
      }
    }
  }
}

/** C text: a buffer of bytes followed by a terminating NUL, read by position. */
module CText {
  const NUL: char := '\0'

  /** The byte at position i; position |t| holds the terminator, and nothing beyond it may be read. */
  function At(t: string, i: nat): char
    requires i <= |t|
  {
    if i < |t| then t[i] else NUL
  }

  /** The text p stands in t at position i. */
  predicate HasAt(t: string, i: nat, p: string) {
    i + |p| <= |t| && forall k {:trigger p[k]} | 0 <= k < |p| :: t[i + k] == p[k]
  }

  lemma HasAtConcat(t: string, i: nat, p: string, q: string)
    ensures HasAt(t, i, p + q) <==> HasAt(t, i, p) && HasAt(t, i + |p|, q)
  {
    var w := p + q;
    assert forall k | 0 <= k < |p| :: w[k] == p[k];
    assert forall k | 0 <= k < |q| :: w[|p| + k] == q[k];
    if HasAt(t, i, w) {
      forall k | 0 <= k < |q| ensures t[i + |p| + k] == q[k] {
        assert w[|p| + k] == q[k];
      }
    }
    if HasAt(t, i, p) && HasAt(t, i + |p|, q) {
      forall k | 0 <= k < |w| ensures t[i + k] == w[k] {
        if k >= |p| {
          assert w[k] == q[k - |p|];
        }
      }
    }
  }

  /** The same, with the text at i written out. */
  lemma HasAtSlice(t: string, i: nat, p: string)
    ensures HasAt(t, i, p) <==> i + |p| <= |t| && t[i..i + |p|] == p
  {
    if i + |p| <= |t| && t[i..i + |p|] == p {
      forall k | 0 <= k < |p| ensures t[i + k] == p[k] {
        assert t[i..i + |p|][k] == p[k];
      }
    }
  }

  /** A text made of two pieces and a tail of three. */
  lemma HasAtPieces(t: string, i: nat, p: string, q: string, a: string, b: string, c: string)
    requires HasAt(t, i, p + q + a + b + c)
    ensures HasAt(t, i, p) && HasAt(t, i + |p|, q) && HasAt(t, i + |p| + |q|, a + b + c)
    ensures |p + q + a + b + c| == |p| + |q| + |a| + |b| + |c|
  {
    assert p + q + a + b + c == p + q + (a + b + c);
    HasAtConcat(t, i, p + q, a + b + c);
    HasAtConcat(t, i, p, q);
  }

  /** The same with one more piece in front. */
  lemma HasAtMorePieces(t: string, i: nat, o: string, p: string, q: string, a: string, b: string, c: string)
    requires HasAt(t, i, o + p + q + a + b + c)
    ensures HasAt(t, i, o) && HasAt(t, i + |o|, p)
    ensures HasAt(t, i + |o| + |p|, q) && HasAt(t, i + |o| + |p| + |q|, a + b + c)
    ensures |o + p + q + a + b + c| == |o| + |p| + |q| + |a| + |b| + |c|
  {
    HasAtPieces(t, i, o + p, q, a, b, c);
    HasAtConcat(t, i, o, p);
  }

  lemma FirstByte(t: string, i: nat, p: string)
    requires p != "" && HasAt(t, i, p)
    ensures At(t, i) == t[i] == p[0]
  {
  }

  /** The comparison `strncmp(t + i, p, strlen(p)) == 0` for a NUL-free p. */
  predicate StartsWith(t: string, i: nat, p: string)
    requires i <= |t|
  {
    p <= t[i..]
  }

  /** isspace in the C locale. */
  predicate IsSpace(c: char) {
    c == ' ' || 9 as char <= c <= 13 as char
  }

  /** toupper in the C locale. */
  function ToUpper(c: char): char {
    if 'a' <= c <= 'z' then (c as int - 32) as char else c
  }
}

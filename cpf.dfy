/**
 * Normalisation of the search key (the CPF, a Brazilian taxpayer number)
 * before it is typed into the portal's form: `cpf.replace(".", "").replace("-", "")`.
 */
module Cpf {

  /** Python's `s.replace(c, "")` for a one-character pattern `c`. */
  function RemoveChar(s: string, c: char): (r: string)
    ensures |r| <= |s|
  {
    if s == [] then [] else (if s[0] == c then [] else [s[0]]) + RemoveChar(s[1..], c)
  }

  /** A character survives the replace exactly when it occurs in `s` and is not `c`. */
  lemma {:induction false} RemoveCharMembership(s: string, c: char)
    ensures forall x :: x in RemoveChar(s, c) <==> x in s && x != c
  {
    if s != [] {
      RemoveCharMembership(s[1..], c);
      assert s == [s[0]] + s[1..];
    }
  }

  /** The two chained replaces, in the order the source applies them. */
  function NormalizeCpf(s: string): (r: string)
    ensures '.' !in r && '-' !in r
  {
    RemoveCharMembership(s, '.');
    RemoveCharMembership(RemoveChar(s, '.'), '-');
    RemoveChar(RemoveChar(s, '.'), '-')
  }

  predicate IsSeparator(c: char)
  {
    c == '.' || c == '-'
  }

  /** Reference definition: one left-to-right pass that keeps every character but `.` and `-`. */
  function KeepNonSeparators(s: string): (r: string)
  {
    if s == [] then [] else (if IsSeparator(s[0]) then [] else [s[0]]) + KeepNonSeparators(s[1..])
  }

  lemma {:induction false} RemoveCharConcat(a: string, b: string, c: char)
    ensures RemoveChar(a + b, c) == RemoveChar(a, c) + RemoveChar(b, c)
  {
    if a != [] {
      assert (a + b)[1..] == a[1..] + b;
      RemoveCharConcat(a[1..], b, c);
    } else {
      assert a + b == b;
    }
  }

  /** The chained replaces compute the single-pass filter. */
  lemma {:induction false} NormalizeIsSinglePass(s: string)
    ensures NormalizeCpf(s) == KeepNonSeparators(s)
  {
    if s != [] {
      var head := if s[0] == '.' then [] else [s[0]];
      RemoveCharConcat(head, RemoveChar(s[1..], '.'), '-');
      NormalizeIsSinglePass(s[1..]);
    }
  }

  /** A character survives exactly when it occurs in the input and is not a separator. */
  lemma NormalizeMembership(s: string, x: char)
    ensures x in NormalizeCpf(s) <==> x in s && !IsSeparator(x)
  {
    RemoveCharMembership(s, '.');
    RemoveCharMembership(RemoveChar(s, '.'), '-');
  }

  /** Order is preserved: normalising a concatenation normalises each part in place. */
  lemma NormalizeConcat(a: string, b: string)
    ensures NormalizeCpf(a + b) == NormalizeCpf(a) + NormalizeCpf(b)
  {
    RemoveCharConcat(a, b, '.');
    RemoveCharConcat(RemoveChar(a, '.'), RemoveChar(b, '.'), '-');
  }

  /** On one character, normalisation drops a separator and keeps anything else, spaces included. */
  lemma NormalizeSingle(c: char)
    ensures NormalizeCpf([c]) == if IsSeparator(c) then [] else [c]
  {
    assert [c][1..] == [];
  }

  /** A string with no separator is left as it is. */
  lemma {:induction false} NormalizeFixesClean(s: string)
    requires forall i :: 0 <= i < |s| ==> !IsSeparator(s[i])
    ensures NormalizeCpf(s) == s
  {
    NormalizeIsSinglePass(s);
    KeepAllClean(s);
  }

  lemma {:induction false} KeepAllClean(s: string)
    requires forall i :: 0 <= i < |s| ==> !IsSeparator(s[i])
    ensures KeepNonSeparators(s) == s
  {
    if s != [] {
      KeepAllClean(s[1..]);
      assert s == [s[0]] + s[1..];
    }
  }

  /** Normalising twice is normalising once. */
  lemma NormalizeIdempotent(s: string)
    ensures NormalizeCpf(NormalizeCpf(s)) == NormalizeCpf(s)
  {
    var r := NormalizeCpf(s);
    forall i | 0 <= i < |r| ensures !IsSeparator(r[i]) {
      assert r[i] in r;
    }
    NormalizeFixesClean(r);
  }

  /** A separator between two parts vanishes and the parts are normalised in place. */
  lemma DropSeparator(a: string, c: char, b: string)
    requires IsSeparator(c)
    ensures NormalizeCpf(a + [c] + b) == NormalizeCpf(a) + NormalizeCpf(b)
  {
    NormalizeSingle(c);
    NormalizeConcat(a, [c]);
    NormalizeConcat(a + [c], b);
  }

  /** Four separator-free groups joined by three separators normalise to the groups run together. */
  lemma NormalizeGroups(g1: string, g2: string, g3: string, g4: string, d1: char, d2: char, d3: char)
    requires IsSeparator(d1) && IsSeparator(d2) && IsSeparator(d3)
    requires forall i :: 0 <= i < |g1| ==> !IsSeparator(g1[i])
    requires forall i :: 0 <= i < |g2| ==> !IsSeparator(g2[i])
    requires forall i :: 0 <= i < |g3| ==> !IsSeparator(g3[i])
    requires forall i :: 0 <= i < |g4| ==> !IsSeparator(g4[i])
    ensures NormalizeCpf(g1 + [d1] + g2 + [d2] + g3 + [d3] + g4) == g1 + g2 + g3 + g4
  {
    DropSeparator(g1 + [d1] + g2 + [d2] + g3, d3, g4);
    DropSeparator(g1 + [d1] + g2, d2, g3);
    DropSeparator(g1, d1, g2);
    NormalizeFixesClean(g1);
    NormalizeFixesClean(g2);
    NormalizeFixesClean(g3);
    NormalizeFixesClean(g4);
  }

  /** The formatted CPF loses its punctuation. */
  lemma NormalizeFormattedExample(s: string)
    requires s == "123.456.789-00"
    ensures NormalizeCpf(s) == "12345678900"
  {
    assert s == s[..3] + [s[3]] + s[4..7] + [s[7]] + s[8..11] + [s[11]] + s[12..];
    NormalizeGroups(s[..3], s[4..7], s[8..11], s[12..], s[3], s[7], s[11]);
    assert s[..3] + s[4..7] + s[8..11] + s[12..] == "12345678900";
  }

  /** Only `.` and `-` go: the spaces inside the key stay where they were. */
  lemma NormalizeSpacedExample(s: string)
    requires s == "111 222 333-44"
    ensures NormalizeCpf(s) == "111 222 33344"
  {
    assert s == s[..11] + [s[11]] + s[12..];
    NormalizeConcat(s[..11] + [s[11]], s[12..]);
    NormalizeConcat(s[..11], [s[11]]);
    NormalizeSingle(s[11]);
    NormalizeFixesClean(s[..11]);
    NormalizeFixesClean(s[12..]);
  }
}

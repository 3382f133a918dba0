/**
 * `FileS::PathStruct::Normalize` (xProject/filesystem/PathStruct.hpp):
 * collapse every run of `/` into one `/`, except that a leading `//`
 * followed by a non-separator is kept.  The method works in place on the
 * path's character buffer with an output index that never overtakes the
 * input index, then erases the tail.
 */
module FileS {
  const kPathSeparator: char := '/'

  predicate IsPathSeparator(c: char)
  {
    c == kPathSeparator
  }

  /** The input begins with exactly two separators and then something else. */
  predicate KeepsPrefix(s: string)
  {
    |s| >= 3 && IsPathSeparator(s[0]) && IsPathSeparator(s[1]) && !IsPathSeparator(s[2])
  }

  /**
   * The characters the main loop writes when it starts on an empty output:
   * a separator is dropped exactly when the character before it in the
   * input is a separator too.
   */
  function CollapseL(s: string): string
    decreases |s|
  {
    if s == [] then []
    else
      var p := CollapseL(s[..|s| - 1]);
      if IsPathSeparator(s[|s| - 1]) && |s| >= 2 && IsPathSeparator(s[|s| - 2]) then p
      else p + [s[|s| - 1]]
  }

  /** What `Normalize` leaves in the path. */
  function Normalized(s: string): string
  {
    (if KeepsPrefix(s) then [kPathSeparator] else []) + CollapseL(s)
  }

  /** Reference definition read from the front: drop a separator that starts a `//`. */
  function Squeeze(s: string): string
    decreases |s|
  {
    if s == [] then []
    else if |s| >= 2 && IsPathSeparator(s[0]) && IsPathSeparator(s[1]) then Squeeze(s[1..])
    else [s[0]] + Squeeze(s[1..])
  }

  /** No two adjacent separators from index `from` on. */
  predicate NoDoubleFrom(r: string, from: nat)
  {
    forall i | from <= i < |r| - 1 :: !(IsPathSeparator(r[i]) && IsPathSeparator(r[i + 1]))
  }

  /** The non-separator characters of a string, in order. */
  function NonSeparators(s: string): string
    decreases |s|
  {
    if s == [] then []
    else (if IsPathSeparator(s[0]) then [] else [s[0]]) + NonSeparators(s[1..])
  }

  // ---------------------------------------------------------------------
  // Facts about CollapseL used by the loop.

  /** The collapsed output is empty only for an empty input, and ends with the input's last character. */
  lemma {:induction false} CollapseLLast(s: string)
    requires s != []
    ensures CollapseL(s) != []
    ensures CollapseL(s)[|CollapseL(s)| - 1] == s[|s| - 1]
    decreases |s|
  {
    var t := s[..|s| - 1];
    if IsPathSeparator(s[|s| - 1]) && |s| >= 2 && IsPathSeparator(s[|s| - 2]) {
      CollapseLLast(t);
      assert t[|t| - 1] == s[|s| - 2];
    }
  }

  lemma {:induction false} CollapseLLength(s: string)
    ensures |CollapseL(s)| <= |s|
    decreases |s|
  {
    if s != [] {
      CollapseLLength(s[..|s| - 1]);
    }
  }

  /** With a kept prefix, the second separator is dropped from every input prefix past it. */
  lemma {:induction false} CollapseLPrefixShorter(s: string, n: nat)
    requires KeepsPrefix(s) && 2 <= n <= |s|
    ensures |CollapseL(s[..n])| <= n - 1
    decreases n
  {
    var t := s[..n];
    assert t[..n - 1] == s[..n - 1];
    if n == 2 {
      assert CollapseL(t[..1]) == [s[0]];
    } else {
      CollapseLPrefixShorter(s, n - 1);
    }
  }

  // ---------------------------------------------------------------------
  // The buffer-rewriting algorithm.

  /** The string a `const char*` denotes: the characters before the first NUL. */
  function CString(p: string): (r: string)
    ensures r <= p && '\0' !in r
    ensures |r| < |p| ==> p[|r|] == '\0'
  {
    if p == [] || p[0] == '\0' then [] else [p[0]] + CString(p[1..])
  }

  class PathStruct {
    /** The characters of `path` live in `buf[..size]`. */
    var buf: array<char>
    var size: nat

    ghost predicate Valid()
      reads this
    {
      size <= buf.Length
    }

    /** `GetPath`. */
    function GetPath(): (r: string)
      requires Valid()
      reads this, buf
      ensures |r| == size
    {
      buf[..size]
    }

    /** The constructor stores the path and normalizes it. */
    constructor (p: string)
      ensures Valid() && GetPath() == Normalized(p)
    {
      buf := new char[|p|](i requires 0 <= i < |p| => p[i]);
      size := |p|;
      new;
      assert buf[..size] == p;
      Normalize();
    }

    /**
     * `SetPath`: replace the path and normalize it.  The argument is a C
     * string, so the assignment keeps only the characters before its first
     * NUL.
     */
    method SetPath(p: string)
      modifies this
      ensures Valid() && GetPath() == Normalized(CString(p)) && fresh(buf)
    {
      var q := CString(p);
      buf := new char[|q|](i requires 0 <= i < |q| => q[i]);
      size := |q|;
      assert buf[..size] == q;
      Normalize();
    }

    /** `Normalize`: rewrite the buffer in place, then erase everything past the output index. */
    method Normalize()
      requires Valid()
      modifies this`size, buf
      ensures Valid() && GetPath() == Normalized(old(GetPath()))
    {
      var outputIndex := NormalizeBuffer(buf, size);
      size := outputIndex;
    }
  }

  /**
   * The two-iterator loop of `Normalize` on the first `n` characters of `a`:
   * `outputIndex` is the write position, which never overtakes `inputIndex`
   * once the input is past the kept prefix.
   */
  method NormalizeBuffer(a: array<char>, n: nat) returns (outputIndex: nat)
    requires n <= a.Length
    modifies a
    ensures outputIndex <= n && a[..outputIndex] == Normalized(old(a[..n]))
  {
    ghost var s := a[..n];
    ghost var keep := KeepsPrefix(s);
    outputIndex := 0;
    var inputIndex := 0;
    if n >= 3 && IsPathSeparator(a[0]) && IsPathSeparator(a[1]) && !IsPathSeparator(a[2]) {
      a[0] := kPathSeparator;
      a[1] := kPathSeparator;
      outputIndex := 2;
    }
    ghost var w := Written(s, 0);
    assert a[..outputIndex] == w;
    while inputIndex != n
      invariant 0 <= inputIndex <= n && outputIndex <= n
      invariant forall j | inputIndex <= j < n :: a[j] == s[j]
      invariant outputIndex <= inputIndex || (keep && inputIndex < 2)
      invariant w == Written(s, inputIndex)
      invariant outputIndex == |w| && forall j | 0 <= j < outputIndex :: a[j] == w[j]
      decreases n - inputIndex
    {
      WrittenBehind(s, inputIndex);
      WrittenBehind(s, inputIndex + 1);
      var character := a[inputIndex];
      outputIndex := EmitAt(a, outputIndex, character, w);
      w := Emit(w, character);
      inputIndex := inputIndex + 1;
    }
    assert a[..outputIndex] == w;
    WrittenAll(s);
  }

  /** The body of the `Normalize` loop: write `character` at `outputIndex` unless it would repeat a separator. */
  method EmitAt(a: array<char>, outputIndex: nat, character: char, ghost w: string) returns (next: nat)
    requires outputIndex == |w| && |Emit(w, character)| <= a.Length
    requires forall j | 0 <= j < outputIndex :: a[j] == w[j]
    modifies a
    ensures next == |Emit(w, character)|
    ensures forall j | 0 <= j < next :: a[j] == Emit(w, character)[j]
    ensures forall j | next <= j < a.Length :: a[j] == old(a[j])
  {
    next := outputIndex;
    if !IsPathSeparator(character) {
      a[next] := character;
      next := next + 1;
    } else if next == 0 || !IsPathSeparator(a[next - 1]) {
      a[next] := kPathSeparator;
      next := next + 1;
    }
  }

  /** One step of the loop: what is written for the next input character after `o`. */
  function Emit(o: string, c: char): string
  {
    if !IsPathSeparator(c) then o + [c]
    else if o == [] || !IsPathSeparator(o[|o| - 1]) then o + [kPathSeparator]
    else o
  }

  /** What the loop has written once it has read the first `i` characters of `s`. */
  function Written(s: string, i: nat): string
    requires i <= |s|
    decreases i
  {
    if i == 0 then (if KeepsPrefix(s) then [kPathSeparator, kPathSeparator] else [])
    else Emit(Written(s, i - 1), s[i - 1])
  }

  /** Past the start, the loop's output is the collapsed input read so far, behind the kept prefix. */
  lemma {:induction false} WrittenIsCollapsed(s: string, i: nat)
    requires i <= |s| && (i > 0 || !KeepsPrefix(s))
    ensures Written(s, i) == (if KeepsPrefix(s) then [kPathSeparator] else []) + CollapseL(s[..i])
    decreases i
  {
    var next := s[..i];
    if i == 1 {
      assert next[..0] == [];
    } else if i > 1 {
      WrittenIsCollapsed(s, i - 1);
      assert next[..i - 1] == s[..i - 1];
      CollapseLLast(s[..i - 1]);
    }
  }

  /** The write position: at the kept `//` for the first two steps, never ahead of the read position after. */
  lemma WrittenBehind(s: string, i: nat)
    requires i <= |s|
    ensures KeepsPrefix(s) && i < 2 ==> Written(s, i) == [kPathSeparator, kPathSeparator]
    ensures |Written(s, i)| <= i || (KeepsPrefix(s) && i < 2)
  {
    if KeepsPrefix(s) && i >= 2 {
      WrittenIsCollapsed(s, i);
      CollapseLPrefixShorter(s, i);
    } else if KeepsPrefix(s) && i == 1 {
    } else if i > 0 {
      WrittenIsCollapsed(s, i);
      CollapseLLength(s[..i]);
    }
  }

  /** The loop's `Written` after the whole input is the declarative `Normalized`. */
  lemma WrittenAll(s: string)
    ensures Written(s, |s|) == Normalized(s)
  {
    assert s[..|s|] == s;
    if |s| > 0 || !KeepsPrefix(s) {
      WrittenIsCollapsed(s, |s|);
    }
  }

  // ---------------------------------------------------------------------
  // What the result satisfies.

  /** The collapsed output has no two adjacent separators. */
  lemma {:induction false} CollapseLNoDouble(s: string)
    ensures NoDoubleFrom(CollapseL(s), 0)
    decreases |s|
  {
    if s != [] {
      var t := s[..|s| - 1];
      CollapseLNoDouble(t);
      var p := CollapseL(t);
      if !(IsPathSeparator(s[|s| - 1]) && |s| >= 2 && IsPathSeparator(s[|s| - 2])) && IsPathSeparator(s[|s| - 1]) && t != [] {
        CollapseLLast(t);
        assert !IsPathSeparator(p[|p| - 1]);
      }
    }
  }

  /** The first character of the collapsed output is the input's first character. */
  lemma {:induction false} CollapseLFirst(s: string)
    requires s != []
    ensures CollapseL(s) != [] && CollapseL(s)[0] == s[0]
    decreases |s|
  {
    CollapseLLast(s);
    if |s| > 1 {
      var t := s[..|s| - 1];
      CollapseLFirst(t);
      assert t[0] == s[0];
    }
  }

  /** After normalization no two adjacent characters are separators, except a kept leading `//`. */
  lemma NormalizedNoDouble(s: string)
    ensures NoDoubleFrom(Normalized(s), if KeepsPrefix(s) then 1 else 0)
  {
    CollapseLNoDouble(s);
  }

  /** A leading `//` is in the output exactly when the input keeps its prefix. */
  lemma NormalizedPrefixIff(s: string)
    ensures (|Normalized(s)| >= 2 && IsPathSeparator(Normalized(s)[0]) && IsPathSeparator(Normalized(s)[1]))
            <==> KeepsPrefix(s)
  {
    CollapseLNoDouble(s);
    if KeepsPrefix(s) {
      CollapseLFirst(s);
    }
  }

  /** The output is never longer than the input, and an empty path stays empty. */
  lemma NormalizedLength(s: string)
    ensures |Normalized(s)| <= |s|
    ensures s == [] ==> Normalized(s) == []
  {
    if KeepsPrefix(s) {
      CollapseLPrefixShorter(s, |s|);
      assert s[..|s|] == s;
    } else {
      CollapseLLength(s);
    }
  }

  lemma NonSeparatorsAppend(a: string, b: string)
    ensures NonSeparators(a + b) == NonSeparators(a) + NonSeparators(b)
    decreases |a|
  {
    if a != [] {
      var head: string := if IsPathSeparator(a[0]) then [] else [a[0]];
      assert (a + b)[0] == a[0];
      assert (a + b)[1..] == a[1..] + b;
      NonSeparatorsAppend(a[1..], b);
      calc {
        NonSeparators(a + b);
        head + NonSeparators(a[1..] + b);
        head + (NonSeparators(a[1..]) + NonSeparators(b));
        (head + NonSeparators(a[1..])) + NonSeparators(b);
        NonSeparators(a) + NonSeparators(b);
      }
    } else {
      assert a + b == b;
    }
  }

  /** Collapsing keeps every non-separator character, in order. */
  lemma {:induction false} CollapseLKeepsNonSeparators(s: string)
    ensures NonSeparators(CollapseL(s)) == NonSeparators(s)
    decreases |s|
  {
    if s != [] {
      var t := s[..|s| - 1];
      var c := s[|s| - 1];
      assert s == t + [c];
      CollapseLKeepsNonSeparators(t);
      NonSeparatorsAppend(t, [c]);
      NonSeparatorsAppend(CollapseL(t), [c]);
      assert NonSeparators([c]) == (if IsPathSeparator(c) then [] else [c]);
    }
  }

  /** Normalization keeps every non-separator character, in order. */
  lemma NormalizedKeepsNonSeparators(s: string)
    ensures NonSeparators(Normalized(s)) == NonSeparators(s)
  {
    CollapseLKeepsNonSeparators(s);
    NonSeparatorsAppend(if KeepsPrefix(s) then [kPathSeparator] else [], CollapseL(s));
  }

  /** Squeezing a string with a character appended. */
  lemma {:induction false} SqueezeSnoc(s: string, c: char)
    ensures Squeeze(s + [c]) ==
            if IsPathSeparator(c) && s != [] && IsPathSeparator(s[|s| - 1]) then Squeeze(s) else Squeeze(s) + [c]
    decreases |s|
  {
    if s == [] {
      assert Squeeze([c]) == [c] + Squeeze([]);
    } else {
      assert (s + [c])[1..] == s[1..] + [c];
      SqueezeSnoc(s[1..], c);
      if |s| == 1 {
        assert s[1..] == [];
      }
    }
  }

  /** Every run of separators becomes exactly one: the loop's output agrees with the front-to-back reference. */
  lemma {:induction false} CollapseLIsSqueeze(s: string)
    ensures CollapseL(s) == Squeeze(s)
    decreases |s|
  {
    if s != [] {
      var t := s[..|s| - 1];
      assert s == t + [s[|s| - 1]];
      CollapseLIsSqueeze(t);
      SqueezeSnoc(t, s[|s| - 1]);
    }
  }

  /** A string with no adjacent separators is its own squeeze. */
  lemma {:induction false} SqueezeNoDouble(s: string)
    requires NoDoubleFrom(s, 0)
    ensures Squeeze(s) == s
    decreases |s|
  {
    if s != [] {
      assert NoDoubleFrom(s[1..], 0) by {
        forall i | 0 <= i < |s[1..]| - 1
          ensures !(IsPathSeparator(s[1..][i]) && IsPathSeparator(s[1..][i + 1]))
        {
          assert s[1..][i] == s[i + 1] && s[1..][i + 1] == s[i + 2];
        }
      }
      SqueezeNoDouble(s[1..]);
    }
  }

  /** Normalizing an already normalized path leaves it unchanged. */
  lemma NormalizedIdempotent(s: string)
    ensures Normalized(Normalized(s)) == Normalized(s)
  {
    var c := CollapseL(s);
    var r := Normalized(s);
    CollapseLNoDouble(s);
    CollapseLIsSqueeze(r);
    if KeepsPrefix(s) {
      CollapseLFirst(s);
      CollapseLIsSqueeze(s);
      assert Squeeze(s) == Squeeze(s[1..]);
      assert s[1..][0] == s[1] && s[1..][1] == s[2];
      assert Squeeze(s[1..]) == [s[1]] + Squeeze(s[2..]);
      assert Squeeze(s[2..]) == [s[2]] + Squeeze(s[3..]);
      assert c[1] == s[2];
      assert KeepsPrefix(r);
      assert r[1..] == c;
      SqueezeNoDouble(c);
      assert Squeeze(r) == Squeeze(r[1..]);
    } else {
      NormalizedPrefixIff(s);
      assert r == c;
      assert !KeepsPrefix(r);
      SqueezeNoDouble(c);
    }
  }
}

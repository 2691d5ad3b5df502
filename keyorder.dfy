/**
 * The map-key comparator: a priority list first, then natural (numeric-aware)
 * order over a key's tokens, with plain string order as the fallback when a
 * key cannot be tokenised. Also the key listing and the sort that the
 * emitter and the merger apply to it.
 */
module KeyOrder {
  import opened Wrappers
  import opened Decimal

  /** Score of a key that is not in the priority list. */
  const NotPrior: nat := 999999

  /** Added to a character's code point so that character tokens sit above small numbers. */
  const CharBase: nat := 0x1000_0000_0000_0000

  /** Every token is a uint64. */
  const Uint64Bound: nat := 0x1_0000_0000_0000_0000

  // ---------------------------------------------------------------------
  // Priority score

  /** priorIndex: the position of s in the priority list, or NotPrior when absent. */
  function PriorIndex(priorKeys: seq<string>, s: string): (r: nat)
    ensures s !in priorKeys ==> r == NotPrior
    ensures s in priorKeys ==> r < |priorKeys| && priorKeys[r] == s && s !in priorKeys[..r]
  {
    PriorIndexFrom(priorKeys, s, 0)
  }

  /** The scan of priorIndex from position i on. */
  function PriorIndexFrom(priorKeys: seq<string>, s: string, i: nat): (r: nat)
    requires i <= |priorKeys|
    ensures s !in priorKeys[i..] ==> r == NotPrior
    ensures s in priorKeys[i..] ==> i <= r < |priorKeys| && priorKeys[r] == s && s !in priorKeys[i..r]
    decreases |priorKeys| - i
  {
    if i == |priorKeys| then NotPrior
    else if priorKeys[i] == s then i
    else
      assert priorKeys[i..] == [priorKeys[i]] + priorKeys[i + 1..];
      PriorIndexFrom(priorKeys, s, i + 1)
  }

  // ---------------------------------------------------------------------
  // Tokens

  /** The token of a non-digit character. */
  function CharToken(c: char): nat
  {
    c as nat + CharBase
  }

  /** The length of the run of digits at the front of s. */
  function DigitRun(s: string): (n: nat)
    ensures n <= |s| && AllDigits(s[..n])
    ensures n < |s| ==> !IsDigit(s[n])
  {
    if s == [] || !IsDigit(s[0]) then 0
    else
      var n := 1 + DigitRun(s[1..]);
      assert s[..n] == [s[0]] + s[1..][..n - 1];
      n
  }

  /** Concatenation of two token results; a failure on either side is a failure. */
  function Join(a: Option<seq<nat>>, b: Option<seq<nat>>): Option<seq<nat>>
  {
    if a.Some? && b.Some? then Some(a.value + b.value) else None
  }

  /** The token of a digit run, or a failure when strconv.ParseInt rejects it. */
  function RunToken(d: string): Option<seq<nat>>
    requires AllDigits(d)
  {
    match ParseInt(d)
    case None => None
    case Some(v) => Some([v])
  }

  /**
   * What convertStringToUint64Slice computes: every maximal run of digits
   * becomes its value, every other character its code point plus CharBase;
   * a run too large for int64 makes the whole key untokenisable.
   */
  function Tokenize(s: string): (r: Option<seq<nat>>)
    ensures r.Some? ==> |r.value| <= |s|
    decreases |s|
  {
    if s == [] then Some([])
    else if IsDigit(s[0]) then
      var n := DigitRun(s);
      Join(RunToken(s[..n]), Tokenize(s[n..]))
    else
      Join(Some([CharToken(s[0])]), Tokenize(s[1..]))
  }

  /** Every token fits the []uint64 the source returns. */
  lemma {:induction false} TokensFitUint64(s: string)
    ensures Tokenize(s).Some? ==>
      forall k :: 0 <= k < |Tokenize(s).value| ==> Tokenize(s).value[k] < Uint64Bound
    decreases |s|
  {
    if s == [] {
    } else if IsDigit(s[0]) {
      TokensFitUint64(s[DigitRun(s)..]);
    } else {
      TokensFitUint64(s[1..]);
    }
  }

  /**
   * convertStringToUint64Slice: the rune loop with its digit buffer. It
   * succeeds exactly when the key can be tokenised, and then returns the
   * tokens.
   */
  method ConvertStringToUint64Slice(s: string) returns (result: seq<nat>, ok: bool)
    ensures ok <==> Tokenize(s).Some?
    ensures ok ==> result == Tokenize(s).value
  {
    result := [];
    var digitBuf: string := [];
    for i := 0 to |s|
      invariant |digitBuf| <= i
      invariant digitBuf == s[i - |digitBuf|..i] && AllDigits(digitBuf)
      invariant i - |digitBuf| == 0 || !IsDigit(s[i - |digitBuf| - 1])
      invariant Tokenize(s[..i - |digitBuf|]) == Some(result)
    {
      var r := s[i];
      if IsDigit(r) {
        DigitStep(s, i, digitBuf);
        digitBuf := digitBuf + [r];
      } else {
        if |digitBuf| > 0 {
          var parsed := ParseInt(digitBuf);
          if parsed.None? {
            OverflowFails(s, i, digitBuf);
            ok := false;
            return;
          }
          NonDigitAfterRun(s, i, digitBuf);
          result := result + [parsed.value];
          digitBuf := [];
        } else {
          NonDigitAlone(s, i);
        }
        result := result + [CharToken(r)];
      }
    }
    if |digitBuf| > 0 {
      var p := s[..|s| - |digitBuf|];
      assert Tokenize(s) == Join(Some(result), RunToken(digitBuf)) by {
        assert s == p + digitBuf;
        assert |p| > 0 ==> p[|p| - 1] == s[|p| - 1];
        RunAtEnd(p, digitBuf);
      }
      var parsed := ParseInt(digitBuf);
      if parsed.None? {
        ok := false;
        return;
      }
      result := result + [parsed.value];
    } else {
      assert s[..|s|] == s;
    }
    ok := true;
  }

  /** The loop step at a digit: the buffer grows by it and still ends at the cursor. */
  lemma DigitStep(s: string, i: nat, buf: string)
    requires i < |s| && IsDigit(s[i])
    requires |buf| <= i && buf == s[i - |buf|..i] && AllDigits(buf)
    ensures buf + [s[i]] == s[i - |buf|..i + 1] && AllDigits(buf + [s[i]])
  {
  }

  /** The loop step at a non-digit with an empty buffer: the character's token extends the tokens. */
  lemma NonDigitAlone(s: string, i: nat)
    requires i < |s| && !IsDigit(s[i])
    requires i == 0 || !IsDigit(s[i - 1])
    requires Tokenize(s[..i]).Some?
    ensures Tokenize(s[..i + 1]) == Some(Tokenize(s[..i]).value + [CharToken(s[i])])
  {
    var p := s[..i];
    assert s[..i + 1] == p + [s[i]];
    assert i == 0 || p[|p| - 1] == s[i - 1];
    TokenizeAppend(p, [s[i]]);
    CharTokens(s[i]);
  }

  /** The loop step at a non-digit after a buffered run: the run's value, then the character's token. */
  lemma NonDigitAfterRun(s: string, i: nat, buf: string)
    requires i < |s| && !IsDigit(s[i])
    requires 0 < |buf| <= i && buf == s[i - |buf|..i] && AllDigits(buf)
    requires i - |buf| == 0 || !IsDigit(s[i - |buf| - 1])
    requires Tokenize(s[..i - |buf|]).Some?
    requires ParseInt(buf).Some?
    ensures Tokenize(s[..i + 1]) == Some(Tokenize(s[..i - |buf|]).value + [ParseInt(buf).value] + [CharToken(s[i])])
  {
    var p := s[..i - |buf|];
    var r := s[i];
    assert s[..i + 1] == p + (buf + [r]);
    TokenizeAppend(p, buf + [r]);
    TokenizeRun(buf, [r]);
    CharTokens(r);
    var tp := Tokenize(p).value;
    var v := ParseInt(buf).value;
    assert Tokenize(buf + [r]) == Some([v] + [CharToken(r)]);
    assert tp + [v] + [CharToken(r)] == tp + ([v] + [CharToken(r)]);
  }

  lemma CharTokens(r: char)
    requires !IsDigit(r)
    ensures Tokenize([r]) == Some([CharToken(r)])
  {
    TokenizeChar(r, []);
    assert [r] + [] == [r];
    assert Tokenize([]) == Some([]);
    assert [CharToken(r)] + [] == [CharToken(r)];
  }

  /** A buffered run that does not fit in int64 makes the whole key untokenisable. */
  lemma OverflowFails(s: string, i: nat, buf: string)
    requires i < |s| && !IsDigit(s[i])
    requires |buf| <= i && buf == s[i - |buf|..i] && AllDigits(buf) && buf != []
    requires i - |buf| == 0 || !IsDigit(s[i - |buf| - 1])
    requires ParseInt(buf).None?
    ensures Tokenize(s).None?
  {
    var p, t := s[..i - |buf|], s[i..];
    assert s == p + (buf + t);
    assert p == [] || p[|p| - 1] == s[i - |buf| - 1];
    assert t[0] == s[i];
    TokenizeRun(buf, t);
    TokenizeAppend(p, buf + t);
  }

  /** A run of digits at the very end is one token after the others. */
  lemma RunAtEnd(p: string, d: string)
    requires p == [] || !IsDigit(p[|p| - 1])
    requires d != [] && AllDigits(d)
    ensures Tokenize(p + d) == Join(Tokenize(p), RunToken(d))
  {
    TokenizeAppend(p, d);
    assert d + [] == d;
    TokenizeRun(d, []);
    assert Tokenize([]) == Some([]);
    var t := RunToken(d);
    if t.Some? {
      assert t.value + [] == t.value;
    }
  }

  lemma {:induction false} DigitRunIs(s: string, n: nat)
    requires n <= |s| && AllDigits(s[..n]) && (n < |s| ==> !IsDigit(s[n]))
    ensures DigitRun(s) == n
    decreases n
  {
    if n > 0 {
      assert IsDigit(s[..n][0]);
      var t := s[1..];
      assert t[..n - 1] == s[..n][1..];
      assert n - 1 < |t| ==> t[n - 1] == s[n];
      DigitRunIs(t, n - 1);
    }
  }

  /** A non-digit character is a token of its own. */
  lemma TokenizeChar(c: char, t: string)
    requires !IsDigit(c)
    ensures Tokenize([c] + t) == Join(Some([CharToken(c)]), Tokenize(t))
  {
    assert ([c] + t)[1..] == t;
  }

  /** A run of digits followed by a non-digit (or nothing) tokenises as the run's value, then the rest. */
  lemma TokenizeRun(d: string, t: string)
    requires d != [] && AllDigits(d)
    requires t == [] || !IsDigit(t[0])
    ensures Tokenize(d + t) == Join(RunToken(d), Tokenize(t))
  {
    var s := d + t;
    assert s[..|d|] == d;
    assert s[|d|..] == t;
    DigitRunIs(s, |d|);
  }

  lemma JoinAssoc(a: Option<seq<nat>>, b: Option<seq<nat>>, c: Option<seq<nat>>)
    ensures Join(a, Join(b, c)) == Join(Join(a, b), c)
  {
    if a.Some? && b.Some? && c.Some? {
      assert a.value + (b.value + c.value) == (a.value + b.value) + c.value;
    }
  }

  /**
   * Tokenising is compositional across a boundary that ends in a
   * non-digit: no digit run spans the cut.
   */
  lemma {:induction false} TokenizeAppend(p: string, q: string)
    requires p == [] || !IsDigit(p[|p| - 1])
    ensures Tokenize(p + q) == Join(Tokenize(p), Tokenize(q))
    decreases |p|
  {
    if p == [] {
      assert p + q == q;
      var t := Tokenize(q);
      if t.Some? {
        assert [] + t.value == t.value;
      }
    } else if IsDigit(p[0]) {
      var n := DigitRun(p);
      assert n < |p|;
      assert (p + q)[..n] == p[..n];
      DigitRunIs(p + q, n);
      assert (p + q)[n..] == p[n..] + q;
      TokenizeAppend(p[n..], q);
      JoinAssoc(RunToken(p[..n]), Tokenize(p[n..]), Tokenize(q));
    } else {
      assert (p + q)[1..] == p[1..] + q;
      TokenizeAppend(p[1..], q);
      JoinAssoc(Some([CharToken(p[0])]), Tokenize(p[1..]), Tokenize(q));
    }
  }

  // ---------------------------------------------------------------------
  // Lexicographic order on tokens and on strings

  /**
   * The token comparison of compairString: the first differing token
   * decides; when one sequence runs out first, the shorter one is smaller.
   */
  predicate LexLess(a: seq<nat>, b: seq<nat>)
  {
    if a == [] || b == [] then |a| < |b|
    else if a[0] != b[0] then a[0] < b[0]
    else LexLess(a[1..], b[1..])
  }

  lemma {:induction false} LexIrreflexive(a: seq<nat>)
    ensures !LexLess(a, a)
  {
    if a != [] {
      LexIrreflexive(a[1..]);
    }
  }

  lemma {:induction false} LexAsymmetric(a: seq<nat>, b: seq<nat>)
    ensures !(LexLess(a, b) && LexLess(b, a))
  {
    if a != [] && b != [] && a[0] == b[0] {
      LexAsymmetric(a[1..], b[1..]);
    }
  }

  lemma {:induction false} LexTransitive(a: seq<nat>, b: seq<nat>, c: seq<nat>)
    requires LexLess(a, b) && LexLess(b, c)
    ensures LexLess(a, c)
  {
    if a != [] && b != [] && c != [] && a[0] == b[0] && b[0] == c[0] {
      LexTransitive(a[1..], b[1..], c[1..]);
    }
  }

  lemma {:induction false} LexTotal(a: seq<nat>, b: seq<nat>)
    ensures a == b || LexLess(a, b) || LexLess(b, a)
  {
    if a != [] && b != [] && a[0] == b[0] {
      LexTotal(a[1..], b[1..]);
      assert a == [a[0]] + a[1..] && b == [b[0]] + b[1..];
    }
  }

  /** A common prefix does not affect the comparison. */
  lemma {:induction false} LexCommonPrefix(t: seq<nat>, a: seq<nat>, b: seq<nat>)
    ensures LexLess(t + a, t + b) == LexLess(a, b)
  {
    if t != [] {
      assert (t + a)[1..] == t[1..] + a;
      assert (t + b)[1..] == t[1..] + b;
      LexCommonPrefix(t[1..], a, b);
    } else {
      assert t + a == a && t + b == b;
    }
  }

  /** A proper prefix sorts first. */
  lemma {:induction false} LexProperPrefix(a: seq<nat>, b: seq<nat>)
    requires b != []
    ensures LexLess(a, a + b)
  {
    if a != [] {
      assert (a + b)[1..] == a[1..] + b;
      LexProperPrefix(a[1..], b);
    }
  }

  /** The code points of a string. */
  function Codes(s: string): (r: seq<nat>)
    ensures |r| == |s| && forall i :: 0 <= i < |s| ==> r[i] == s[i] as nat
  {
    seq(|s|, i requires 0 <= i < |s| => s[i] as nat)
  }

  /**
   * Go's `s1 < s2` on strings: byte order on UTF-8, which is the same as
   * lexicographic order on code points.
   */
  predicate StrLess(a: string, b: string)
  {
    LexLess(Codes(a), Codes(b))
  }

  lemma CodesInjective(a: string, b: string)
    requires Codes(a) == Codes(b)
    ensures a == b
  {
    forall i | 0 <= i < |a|
      ensures a[i] == b[i]
    {
      assert Codes(a)[i] == Codes(b)[i];
    }
  }

  lemma StrTotal(a: string, b: string)
    ensures a == b || StrLess(a, b) || StrLess(b, a)
  {
    LexTotal(Codes(a), Codes(b));
    if Codes(a) == Codes(b) {
      CodesInjective(a, b);
    }
  }

  // ---------------------------------------------------------------------
  // The comparator

  /** compairString: priority score first, then tokens, then plain string order as the fallback. */
  predicate Less(priorKeys: seq<string>, s1: string, s2: string)
  {
    var score1 := PriorIndex(priorKeys, s1);
    var score2 := PriorIndex(priorKeys, s2);
    if score1 != score2 then score1 < score2
    else
      var t1 := Tokenize(s1);
      var t2 := Tokenize(s2);
      if t1.None? || t2.None? then StrLess(s1, s2)
      else LexLess(t1.value, t2.value)
  }

  /** No key sorts before itself. */
  lemma LessIrreflexive(priorKeys: seq<string>, s: string)
    ensures !Less(priorKeys, s, s)
  {
    LexIrreflexive(Codes(s));
    if Tokenize(s).Some? {
      LexIrreflexive(Tokenize(s).value);
    }
  }

  /** At most one of Less(a, b) and Less(b, a) holds, for every pair of keys. */
  lemma LessAsymmetric(priorKeys: seq<string>, a: string, b: string)
    ensures !(Less(priorKeys, a, b) && Less(priorKeys, b, a))
  {
    LexAsymmetric(Codes(a), Codes(b));
    if Tokenize(a).Some? && Tokenize(b).Some? {
      LexAsymmetric(Tokenize(a).value, Tokenize(b).value);
    }
  }

  /**
   * Keys in the priority list sort before every other key, and an earlier
   * position in the list sorts first.
   */
  lemma PriorityKeysFirst(priorKeys: seq<string>, a: string, b: string)
    requires |priorKeys| <= NotPrior
    ensures a in priorKeys && b !in priorKeys ==> Less(priorKeys, a, b)
    ensures a in priorKeys && b in priorKeys && a != b ==>
      (Less(priorKeys, a, b) <==> PriorIndex(priorKeys, a) < PriorIndex(priorKeys, b))
  {
  }

  /** On keys that tokenise, the comparator is transitive. */
  lemma LessTransitive(priorKeys: seq<string>, a: string, b: string, c: string)
    requires Tokenize(a).Some? && Tokenize(b).Some? && Tokenize(c).Some?
    requires Less(priorKeys, a, b) && Less(priorKeys, b, c)
    ensures Less(priorKeys, a, c)
  {
    if PriorIndex(priorKeys, a) == PriorIndex(priorKeys, c) {
      LexTransitive(Tokenize(a).value, Tokenize(b).value, Tokenize(c).value);
    }
  }

  /**
   * On keys that tokenise, two keys are incomparable exactly when they
   * have the same score and the same tokens (so the comparator is a strict
   * weak order there).
   */
  lemma LessEquivalence(priorKeys: seq<string>, a: string, b: string)
    requires Tokenize(a).Some? && Tokenize(b).Some?
    ensures (!Less(priorKeys, a, b) && !Less(priorKeys, b, a)) <==>
      (PriorIndex(priorKeys, a) == PriorIndex(priorKeys, b) && Tokenize(a) == Tokenize(b))
  {
    LexTotal(Tokenize(a).value, Tokenize(b).value);
    LexIrreflexive(Tokenize(a).value);
  }

  /** A key made of a prefix and a number tokenises as the prefix's tokens and then the number. */
  lemma TokenizeNumbered(p: string, n: nat)
    requires p == [] || !IsDigit(p[|p| - 1])
    requires Tokenize(p).Some? && n <= MaxInt64
    ensures Tokenize(p + NatToDecimal(n)) == Some(Tokenize(p).value + [n])
  {
    var d := NatToDecimal(n);
    TokenizeAppend(p, d);
    TokenizeRun(d, []);
    assert d + [] == d;
    NatToDecimalRoundTrip(n);
    assert RunToken(d) == Some([n]);
    assert Tokenize([]) == Some([]);
    assert Tokenize(d) == Some([n] + []);
    assert [n] + [] == [n];
  }

  /**
   * Numbers compare as integers: with a common prefix and equal scores,
   * `p` + m sorts before `p` + n exactly when m < n (so item2 sorts before item10).
   */
  lemma NumberedKeys(priorKeys: seq<string>, p: string, m: nat, n: nat)
    requires p == [] || !IsDigit(p[|p| - 1])
    requires Tokenize(p).Some? && m <= MaxInt64 && n <= MaxInt64
    requires PriorIndex(priorKeys, p + NatToDecimal(m)) == PriorIndex(priorKeys, p + NatToDecimal(n))
    ensures Less(priorKeys, p + NatToDecimal(m), p + NatToDecimal(n)) <==> m < n
  {
    TokenizeNumbered(p, m);
    TokenizeNumbered(p, n);
    LexCommonPrefix(Tokenize(p).value, [m], [n]);
  }

  /** A key whose tokens are a proper prefix of another's sorts first (so a sorts before a1). */
  lemma ProperPrefixFirst(priorKeys: seq<string>, s1: string, s2: string)
    requires PriorIndex(priorKeys, s1) == PriorIndex(priorKeys, s2)
    requires Tokenize(s1).Some? && Tokenize(s2).Some?
    requires |Tokenize(s1).value| < |Tokenize(s2).value|
    requires Tokenize(s1).value == Tokenize(s2).value[..|Tokenize(s1).value|]
    ensures Less(priorKeys, s1, s2)
  {
    var t1, t2 := Tokenize(s1).value, Tokenize(s2).value;
    assert t2 == t1 + t2[|t1|..];
    LexProperPrefix(t1, t2[|t1|..]);
  }

  /**
   * At the first place two keys differ, a number below 2^60 sorts before
   * any non-digit character.
   */
  lemma DigitsBeforeCharacters(priorKeys: seq<string>, p: string, d: string, t1: string, c: char, t2: string)
    requires p == [] || !IsDigit(p[|p| - 1])
    requires d != [] && AllDigits(d) && DigitsValue(d) < CharBase
    requires t1 == [] || !IsDigit(t1[0])
    requires !IsDigit(c)
    requires Tokenize(p).Some? && Tokenize(t1).Some? && Tokenize(t2).Some?
    requires PriorIndex(priorKeys, p + d + t1) == PriorIndex(priorKeys, p + [c] + t2)
    ensures Less(priorKeys, p + d + t1, p + [c] + t2)
  {
    var tp := Tokenize(p).value;
    var a := [DigitsValue(d)] + Tokenize(t1).value;
    var b := [CharToken(c)] + Tokenize(t2).value;
    TokensAfterRun(p, d, t1);
    TokensAfterChar(p, c, t2);
    LexCommonPrefix(tp, a, b);
  }

  lemma TokensAfterRun(p: string, d: string, t: string)
    requires p == [] || !IsDigit(p[|p| - 1])
    requires d != [] && AllDigits(d) && DigitsValue(d) <= MaxInt64
    requires t == [] || !IsDigit(t[0])
    requires Tokenize(p).Some? && Tokenize(t).Some?
    ensures Tokenize(p + d + t) == Some(Tokenize(p).value + ([DigitsValue(d)] + Tokenize(t).value))
  {
    var dt := d + t;
    assert p + d + t == p + dt;
    TokenizeAppend(p, dt);
    TokenizeRun(d, t);
    var run := [DigitsValue(d)];
    assert RunToken(d) == Some(run);
    assert Tokenize(dt) == Some(run + Tokenize(t).value);
  }

  lemma TokensAfterChar(p: string, c: char, t: string)
    requires p == [] || !IsDigit(p[|p| - 1])
    requires !IsDigit(c)
    requires Tokenize(p).Some? && Tokenize(t).Some?
    ensures Tokenize(p + [c] + t) == Some(Tokenize(p).value + ([CharToken(c)] + Tokenize(t).value))
  {
    var ct := [c] + t;
    assert p + [c] + t == p + ct;
    TokenizeAppend(p, ct);
    TokenizeChar(c, t);
    assert Tokenize(ct) == Some([CharToken(c)] + Tokenize(t).value);
  }

  /** Leading zeros are ignored: a run of digits and the same run with a 0 in front tokenise alike. */
  lemma LeadingZerosIgnored(priorKeys: seq<string>, d: string)
    requires d != [] && AllDigits(d) && DigitsValue(d) <= MaxInt64
    requires PriorIndex(priorKeys, ['0'] + d) == PriorIndex(priorKeys, d)
    ensures Tokenize(['0'] + d) == Tokenize(d)
    ensures !Less(priorKeys, ['0'] + d, d) && !Less(priorKeys, d, ['0'] + d)
  {
    LeadingZeroValue(d);
    TokenizeRun(['0'] + d, []);
    TokenizeRun(d, []);
    assert (['0'] + d) + [] == ['0'] + d;
    assert d + [] == d;
    assert Tokenize([]) == Some([]);
    assert RunToken(d) == RunToken(['0'] + d) == Some([DigitsValue(d)]);
    LexIrreflexive([DigitsValue(d)] + []);
  }

  /** Natural order: item2 sorts before item10, although "1" < "2" character-wise. */
  lemma NumberedItemsExample()
    ensures Less(["name"], "item2", "item10")
  {
    assert Tokenize("") == Some([]);
    TokenizeChar('m', "");
    TokenizeChar('e', "m");
    TokenizeChar('t', "em");
    TokenizeChar('i', "tem");
    assert NatToDecimal(2) == "2";
    assert NatToDecimal(10) == "10";
    assert "item" + NatToDecimal(2) == "item2";
    assert "item" + NatToDecimal(10) == "item10";
    NumberedKeys(["name"], "item", 2, 10);
  }

  /** A key sorts before the same key with a number appended. */
  lemma PrefixExample()
    ensures Less(["name"], "a", "a1")
  {
    assert Tokenize("") == Some([]);
    TokenizeChar('a', "");
    assert NatToDecimal(1) == "1";
    assert "a" + NatToDecimal(1) == "a1";
    TokenizeNumbered("a", 1);
    ProperPrefixFirst(["name"], "a", "a1");
  }

  /** 01 and 1 are equivalent: neither sorts before the other. */
  lemma LeadingZeroExample()
    ensures !Less(["name"], "01", "1") && !Less(["name"], "1", "01")
  {
    assert ['0'] + "1" == "01";
    LeadingZerosIgnored(["name"], "1");
  }

  // ---------------------------------------------------------------------
  // Key listing and sorting

  lemma {:induction false} LeastExists(s: set<string>) returns (x: string)
    requires s != {}
    ensures x in s && forall y :: y in s ==> !StrLess(y, x)
    decreases |s|
  {
    var z :| z in s;
    LexIrreflexive(Codes(z));
    if s == {z} {
      x := z;
    } else {
      var x' := LeastExists(s - {z});
      if StrLess(z, x') {
        x := z;
        forall y | y in s
          ensures !StrLess(y, x)
        {
          if y != z && StrLess(y, x) {
            assert y in s - {z};
            LexTransitive(Codes(y), Codes(z), Codes(x'));
          }
        }
      } else {
        x := x';
        forall y | y in s
          ensures !StrLess(y, x)
        {
          if y != z {
            assert y in s - {z};
          }
        }
      }
    }
  }

  lemma LeastUnique(s: set<string>)
    requires s != {}
    ensures exists x :: x in s && forall y :: y in s ==> !StrLess(y, x)
    ensures forall x, x' ::
      x in s && x' in s && (forall y :: y in s ==> !StrLess(y, x)) && (forall y :: y in s ==> !StrLess(y, x'))
      ==> x == x'
  {
    var m := LeastExists(s);
    forall x, x' |
      x in s && x' in s && (forall y :: y in s ==> !StrLess(y, x)) && (forall y :: y in s ==> !StrLess(y, x'))
      ensures x == x'
    {
      StrTotal(x, x');
    }
  }

  /** The first key of a set in code-point order. */
  function Least(s: set<string>): (x: string)
    requires s != {}
    ensures x in s && forall y :: y in s ==> !StrLess(y, x)
  {
    LeastUnique(s);
    var x :| x in s && forall y :: y in s ==> !StrLess(y, x);
    x
  }

  /**
   * The keys of a map as `for k := range m` collects them. Go randomises
   * that order; the model fixes one, code-point order. It lists every key
   * exactly once.
   */
  function KeyList(keys: set<string>): (r: seq<string>)
    ensures multiset(r) == multiset(keys)
    decreases |keys|
  {
    if keys == {} then []
    else
      var x := Least(keys);
      var rest := KeyList(keys - {x});
      assert multiset(keys) == multiset{x} + multiset(keys - {x}) by {
        assert keys == {x} + (keys - {x});
      }
      [x] + rest
  }

  /** Insertion of one key into a list: before the first key it sorts before. */
  function Insert(priorKeys: seq<string>, x: string, sorted: seq<string>): (r: seq<string>)
    ensures multiset(r) == multiset(sorted) + multiset{x}
  {
    if sorted == [] then [x]
    else if Less(priorKeys, x, sorted[0]) then [x] + sorted
    else
      assert sorted == [sorted[0]] + sorted[1..];
      [sorted[0]] + Insert(priorKeys, x, sorted[1..])
  }

  /** The sort.Slice call with compairString, as an insertion sort: a permutation of its input. */
  function SortKeys(priorKeys: seq<string>, keys: seq<string>): (r: seq<string>)
    ensures multiset(r) == multiset(keys)
  {
    if keys == [] then []
    else
      assert keys == [keys[0]] + keys[1..];
      Insert(priorKeys, keys[0], SortKeys(priorKeys, keys[1..]))
  }

  /** The order in which the emitter and the merger visit a map's keys. */
  function SortedKeys<V>(priorKeys: seq<string>, m: map<string, V>): (r: seq<string>)
    ensures |r| == |m|
    ensures forall i :: 0 <= i < |r| ==> r[i] in m
  {
    var r := SortKeys(priorKeys, KeyList(m.Keys));
    assert |r| == |multiset(r)| == |multiset(m.Keys)| == |m.Keys|;
    forall i | 0 <= i < |r|
      ensures r[i] in m
    {
      assert r[i] in multiset(r);
    }
    r
  }

  /** A key that sorts before every other key of the list comes out of the sort first. */
  lemma {:induction false} LeastComesFirst(priorKeys: seq<string>, x: string, keys: seq<string>)
    requires x in keys
    requires forall y :: y in keys && y != x ==> Less(priorKeys, x, y)
    ensures SortKeys(priorKeys, keys) != [] && SortKeys(priorKeys, keys)[0] == x
  {
    var rest := SortKeys(priorKeys, keys[1..]);
    assert SortKeys(priorKeys, keys) == Insert(priorKeys, keys[0], rest);
    if keys[0] == x {
      if rest != [] && rest[0] != x {
        assert rest[0] in multiset(keys[1..]);
        assert rest[0] in keys;
      }
    } else {
      assert x in keys[1..];
      LeastComesFirst(priorKeys, x, keys[1..]);
      LessAsymmetric(priorKeys, x, keys[0]);
    }
  }

  /** The first key of the priority list, when the map has it, is the first key visited. */
  lemma PriorHeadFirst<V>(priorKeys: seq<string>, m: map<string, V>)
    requires priorKeys != [] && priorKeys[0] in m
    ensures SortedKeys(priorKeys, m) != [] && SortedKeys(priorKeys, m)[0] == priorKeys[0]
  {
    var k := priorKeys[0];
    var keys := KeyList(m.Keys);
    assert k in multiset(keys);
    assert PriorIndex(priorKeys, k) == 0;
    forall y | y in keys && y != k
      ensures Less(priorKeys, k, y)
    {
    }
    LeastComesFirst(priorKeys, k, keys);
  }

  /** Two one-letter keys other than a priority key compare by their letters. */
  lemma LetterLess(x: char, y: char)
    requires !IsDigit(x) && !IsDigit(y) && x < y
    ensures Tokenize([x]).Some? && Tokenize([y]).Some?
    ensures Less(["name"], [x], [y])
  {
    assert Tokenize("") == Some([]);
    TokenizeChar(x, "");
    TokenizeChar(y, "");
    assert [x] + "" == [x] && [y] + "" == [y];
  }

  /** Three keys in strictly ascending order have only one sorted arrangement. */
  lemma SortedThree(priorKeys: seq<string>, r: seq<string>, a: string, b: string, c: string)
    requires |r| == 3 && Sorted(priorKeys, r)
    requires a in r && b in r && c in r
    requires Less(priorKeys, a, b) && Less(priorKeys, b, c) && Less(priorKeys, a, c)
    ensures r == [a, b, c]
  {
    LessIrreflexive(priorKeys, a);
    LessIrreflexive(priorKeys, b);
    assert !Less(priorKeys, r[1], r[0]) && !Less(priorKeys, r[2], r[0]) && !Less(priorKeys, r[2], r[1]);
  }

  lemma LetterSetSize()
    ensures |{"a", "b", "c"}| == 3
  {
    assert "a"[0] != "b"[0] && "a"[0] != "c"[0] && "b"[0] != "c"[0];
  }

  /** The keys a, b and c of a map are visited in that order. */
  lemma LetterKeysExample<V>(m: map<string, V>)
    requires m.Keys == {"a", "b", "c"}
    ensures SortedKeys(["name"], m) == ["a", "b", "c"]
  {
    var r := SortedKeys(["name"], m);
    LetterLess('a', 'b');
    LetterLess('b', 'c');
    LetterLess('a', 'c');
    forall k | k in m
      ensures Tokenize(k).Some?
    {
      assert k in {"a", "b", "c"};
    }
    SortedKeysSorted(["name"], m);
    SortedKeysPermutation(["name"], m);
    assert "a" in m && "b" in m && "c" in m;
    assert |m| == 3 by {
      LetterSetSize();
      assert |m| == |m.Keys|;
    }
    SortedThree(["name"], r, "a", "b", "c");
  }

  /** Every key of the map is visited, exactly once. */
  lemma SortedKeysPermutation<V>(priorKeys: seq<string>, m: map<string, V>)
    ensures multiset(SortedKeys(priorKeys, m)) == multiset(m.Keys)
    ensures forall i, j :: 0 <= i < j < |SortedKeys(priorKeys, m)| ==> SortedKeys(priorKeys, m)[i] != SortedKeys(priorKeys, m)[j]
    ensures forall k :: k in m ==> k in SortedKeys(priorKeys, m)
  {
    var r := SortedKeys(priorKeys, m);
    assert multiset(r) == multiset(m.Keys);
    forall k | k in m
      ensures k in r
    {
      assert k in multiset(m.Keys);
    }
    DistinctFromSet(r, m.Keys);
  }

  lemma DistinctFromSet(r: seq<string>, s: set<string>)
    requires multiset(r) == multiset(s)
    ensures forall i, j :: 0 <= i < j < |r| ==> r[i] != r[j]
  {
    forall i, j | 0 <= i < j < |r|
      ensures r[i] != r[j]
    {
      var x := r[j];
      assert r == r[..j] + [x] + r[j + 1..];
      assert multiset(r)[x] == multiset(r[..j])[x] + 1 + multiset(r[j + 1..])[x];
      assert multiset(s)[x] <= 1;
      assert r[..j][i] == r[i];
      assert multiset(r[..j])[x] == 0;
    }
  }

  /** No key is followed by a key that sorts before it. */
  ghost predicate Sorted(priorKeys: seq<string>, r: seq<string>)
  {
    forall i, j :: 0 <= i < j < |r| ==> !Less(priorKeys, r[j], r[i])
  }

  ghost predicate AllTokenize(keys: seq<string>)
  {
    forall i :: 0 <= i < |keys| ==> Tokenize(keys[i]).Some?
  }

  lemma InsertMembers(priorKeys: seq<string>, x: string, s: seq<string>)
    ensures forall i :: 0 <= i < |Insert(priorKeys, x, s)| ==>
      Insert(priorKeys, x, s)[i] == x || Insert(priorKeys, x, s)[i] in s
  {
    var r := Insert(priorKeys, x, s);
    forall i | 0 <= i < |r|
      ensures r[i] == x || r[i] in s
    {
      assert r[i] in multiset(r);
    }
  }

  lemma SortedHead(priorKeys: seq<string>, s: seq<string>)
    requires s != [] && Sorted(priorKeys, s)
    ensures forall y :: y in s[1..] ==> !Less(priorKeys, y, s[0])
  {
    forall y | y in s[1..]
      ensures !Less(priorKeys, y, s[0])
    {
      var k :| 0 <= k < |s| - 1 && s[1..][k] == y;
      assert s[k + 1] == y;
    }
  }

  /** Inserting in front of a key that sorts after x keeps the list sorted. */
  lemma InsertFront(priorKeys: seq<string>, x: string, s: seq<string>)
    requires s != [] && Sorted(priorKeys, s) && AllTokenize(s) && Tokenize(x).Some?
    requires Less(priorKeys, x, s[0])
    ensures Sorted(priorKeys, [x] + s)
  {
    forall j | 0 <= j < |s|
      ensures !Less(priorKeys, s[j], x)
    {
      LessIrreflexive(priorKeys, s[0]);
      if Less(priorKeys, s[j], x) {
        LessTransitive(priorKeys, s[j], x, s[0]);
      }
    }
    var r := [x] + s;
    forall i, j | 0 <= i < j < |r|
      ensures !Less(priorKeys, r[j], r[i])
    {
      if i > 0 {
        assert r[i] == s[i - 1] && r[j] == s[j - 1];
      }
    }
  }

  /** Keeping the head and inserting into the tail keeps the list sorted. */
  lemma InsertBehind(priorKeys: seq<string>, x: string, s: seq<string>, tail: seq<string>)
    requires s != [] && Sorted(priorKeys, s)
    requires !Less(priorKeys, x, s[0])
    requires Sorted(priorKeys, tail)
    requires forall i :: 0 <= i < |tail| ==> tail[i] == x || tail[i] in s[1..]
    ensures Sorted(priorKeys, [s[0]] + tail)
  {
    SortedHead(priorKeys, s);
    var r := [s[0]] + tail;
    forall i, j | 0 <= i < j < |r|
      ensures !Less(priorKeys, r[j], r[i])
    {
      assert r[j] == tail[j - 1];
      if i > 0 {
        assert r[i] == tail[i - 1];
      }
    }
  }

  lemma {:induction false} InsertSorted(priorKeys: seq<string>, x: string, s: seq<string>)
    requires Sorted(priorKeys, s) && AllTokenize(s) && Tokenize(x).Some?
    ensures Sorted(priorKeys, Insert(priorKeys, x, s))
    ensures AllTokenize(Insert(priorKeys, x, s))
  {
    InsertMembers(priorKeys, x, s);
    if s == [] {
    } else if Less(priorKeys, x, s[0]) {
      InsertFront(priorKeys, x, s);
    } else {
      assert Sorted(priorKeys, s[1..]);
      assert AllTokenize(s[1..]);
      InsertSorted(priorKeys, x, s[1..]);
      InsertMembers(priorKeys, x, s[1..]);
      InsertBehind(priorKeys, x, s, Insert(priorKeys, x, s[1..]));
    }
  }

  lemma {:induction false} SortKeysSorted(priorKeys: seq<string>, keys: seq<string>)
    requires AllTokenize(keys)
    ensures Sorted(priorKeys, SortKeys(priorKeys, keys))
    ensures AllTokenize(SortKeys(priorKeys, keys))
  {
    if keys != [] {
      SortKeysSorted(priorKeys, keys[1..]);
      InsertSorted(priorKeys, keys[0], SortKeys(priorKeys, keys[1..]));
    }
  }

  /** When every key of the map tokenises, the emitted key order is sorted by compairString. */
  lemma SortedKeysSorted<V>(priorKeys: seq<string>, m: map<string, V>)
    requires forall k :: k in m ==> Tokenize(k).Some?
    ensures Sorted(priorKeys, SortedKeys(priorKeys, m))
  {
    var listed := KeyList(m.Keys);
    forall i | 0 <= i < |listed|
      ensures Tokenize(listed[i]).Some?
    {
      assert listed[i] in multiset(listed);
    }
    SortKeysSorted(priorKeys, listed);
  }
}

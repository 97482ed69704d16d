/**
 * The unary part of a Golomb-Rice code, as symbols. With threshold t, a symbol below t ends a
 * quotient and the symbol t says "t more, and it goes on": zero runs use t == 1 (one bit per
 * symbol), weights use t == 2, and truncated weight codes use t == 3, where every code is one symbol.
 */
module UnaryCode {

  function Symbol(q: nat, t: nat): nat {
    if q < t then q else t
  }

  function Code(q: nat, t: nat): (s: seq<nat>)
    requires t >= 1
    ensures |s| >= 1
  {
    if q < t then [q] else [t] + Code(q - t, t)
  }

  function Codes(qs: seq<nat>, t: nat): seq<nat>
    requires t >= 1
  {
    if qs == [] then [] else Code(qs[0], t) + Codes(qs[1..], t)
  }

  /** How many quotients end in cs. */
  function Terminals(cs: seq<nat>, t: nat): nat {
    if cs == [] then 0 else (if cs[0] < t then 1 else 0) + Terminals(cs[1..], t)
  }

  /** The quotients that end in cs, when `carry` was read before, and what is carried on. */
  function Parse(cs: seq<nat>, carry: nat, t: nat): (r: (seq<nat>, nat)) {
    if cs == [] then ([], carry)
    else if cs[0] < t then
      var (qs, c) := Parse(cs[1..], 0, t);
      ([carry + cs[0]] + qs, c)
    else Parse(cs[1..], carry + cs[0], t)
  }

  /** n symbols of the endless stream that continues s with zeros, from position lo on. */
  function Window(s: seq<nat>, lo: nat, n: nat): (w: seq<nat>)
    ensures |w| == n
  {
    seq(n, i requires 0 <= i < n => if lo + i < |s| then s[lo + i] else 0)
  }

  lemma WindowSplits(s: seq<nat>, lo: nat, n: nat)
    ensures Window(s, 0, lo + n) == Window(s, 0, lo) + Window(s, lo, n)
  {
  }

  lemma {:induction false} TerminalsAdd(a: seq<nat>, b: seq<nat>, t: nat)
    ensures Terminals(a + b, t) == Terminals(a, t) + Terminals(b, t)
  {
    if a == [] {
      assert a + b == b;
    } else {
      assert (a + b)[1..] == a[1..] + b;
      TerminalsAdd(a[1..], b, t);
    }
  }

  lemma {:induction false} CodeEndsOnce(q: nat, t: nat)
    requires t >= 1
    ensures Terminals(Code(q, t), t) == 1
  {
    if q < t {
    } else {
      CodeEndsOnce(q - t, t);
      assert Code(q, t)[1..] == Code(q - t, t);
    }
  }

  lemma {:induction false} CodesEndOnceEach(qs: seq<nat>, t: nat)
    requires t >= 1
    ensures Terminals(Codes(qs, t), t) == |qs|
  {
    if qs == [] {
    } else {
      CodesEndOnceEach(qs[1..], t);
      CodeEndsOnce(qs[0], t);
      TerminalsAdd(Code(qs[0], t), Codes(qs[1..], t), t);
    }
  }

  /** The decoder may read a stream of symbols piece by piece. */
  lemma {:induction false} ParseSplits(a: seq<nat>, b: seq<nat>, carry: nat, t: nat)
    ensures Parse(a + b, carry, t).0 == Parse(a, carry, t).0 + Parse(b, Parse(a, carry, t).1, t).0
    ensures Parse(a + b, carry, t).1 == Parse(b, Parse(a, carry, t).1, t).1
  {
    if a == [] {
      assert a + b == b;
    } else {
      assert (a + b)[1..] == a[1..] + b;
      ParseSplits(a[1..], b, if a[0] < t then 0 else carry + a[0], t);
    }
  }

  lemma {:induction false} ParseCounts(cs: seq<nat>, carry: nat, t: nat)
    ensures |Parse(cs, carry, t).0| == Terminals(cs, t)
  {
    if cs == [] {
    } else {
      ParseCounts(cs[1..], if cs[0] < t then 0 else carry + cs[0], t);
    }
  }

  lemma {:induction false} ParseCode(q: nat, rest: seq<nat>, carry: nat, t: nat)
    requires t >= 1
    ensures Parse(Code(q, t) + rest, carry, t) == ([carry + q] + Parse(rest, 0, t).0, Parse(rest, 0, t).1)
  {
    var cs := Code(q, t) + rest;
    if q < t {
      assert cs[1..] == rest;
    } else {
      assert cs[1..] == Code(q - t, t) + rest;
      ParseCode(q - t, rest, carry + t, t);
    }
  }

  lemma {:induction false} ParseOpenCode(q: nat, m: nat, carry: nat, t: nat)
    requires t >= 1
    requires m < |Code(q, t)|
    ensures Parse(Code(q, t)[..m], carry, t).0 == []
  {
    if m == 0 {
    } else {
      assert Code(q, t)[..m][1..] == Code(q - t, t)[..m - 1];
      ParseOpenCode(q - t, m - 1, carry + t, t);
    }
  }

  lemma {:induction false} ParseZeros(cs: seq<nat>, t: nat)
    requires t >= 1
    requires forall i :: 0 <= i < |cs| ==> cs[i] == 0
    ensures |Parse(cs, 0, t).0| == |cs|
    ensures forall i :: 0 <= i < |cs| ==> Parse(cs, 0, t).0[i] == 0
  {
    if cs == [] {
    } else {
      ParseZeros(cs[1..], t);
    }
  }

  /**
   * Reading the first m symbols of the padded stream gives a prefix of the quotients followed by
   * zeros, and it gives all the quotients exactly when m reaches the end of their codes.
   */
  lemma {:induction false} ParsePadded(qs: seq<nat>, m: nat, t: nat)
    requires t >= 1
    ensures var ds := Parse(Window(Codes(qs, t), 0, m), 0, t).0;
            && (m >= |Codes(qs, t)| <==> |ds| >= |qs|)
            && (forall i :: 0 <= i < |ds| ==> ds[i] == if i < |qs| then qs[i] else 0)
    decreases |qs|
  {
    var s := Codes(qs, t);
    var w := Window(s, 0, m);
    if qs == [] {
      ParseZeros(w, t);
    } else {
      var c, rest := Code(qs[0], t), Codes(qs[1..], t);
      if m < |c| {
        assert w == c[..m];
        ParseOpenCode(qs[0], m, 0, t);
      } else {
        assert w == c + Window(rest, 0, m - |c|);
        ParsePadded(qs[1..], m - |c|, t);
        ParseCode(qs[0], Window(rest, 0, m - |c|), 0, t);
      }
    }
  }

  // ---- symbols as bits

  /** The first bit of every symbol: is it above zero? */
  function Unary0(cs: seq<nat>): (u: seq<bool>)
    ensures |u| == |cs|
  {
    seq(|cs|, i requires 0 <= i < |cs| => cs[i] > 0)
  }

  /** The second bit of every symbol above zero: is it two? */
  function Unary1(cs: seq<nat>): seq<bool> {
    if cs == [] then [] else (if cs[0] > 0 then [cs[0] > 1] else []) + Unary1(cs[1..])
  }

  function CountTrue(u: seq<bool>): nat {
    if u == [] then 0 else (if u[0] then 1 else 0) + CountTrue(u[1..])
  }

  /** One-bit symbols. */
  function FromBits(u: seq<bool>): (cs: seq<nat>)
    ensures |cs| == |u|
  {
    seq(|u|, i requires 0 <= i < |u| => if u[i] then 1 else 0)
  }

  /** Symbols from their first and second bits. */
  function FromUnary(u0: seq<bool>, u1: seq<bool>): (cs: seq<nat>)
    requires |u1| == CountTrue(u0)
    ensures |cs| == |u0|
  {
    if u0 == [] then []
    else if u0[0] then [if u1[0] then 2 else 1] + FromUnary(u0[1..], u1[1..])
    else [0] + FromUnary(u0[1..], u1)
  }

  lemma {:induction false} FromUnaryInverts(cs: seq<nat>)
    requires forall i :: 0 <= i < |cs| ==> cs[i] <= 2
    ensures |Unary1(cs)| == CountTrue(Unary0(cs))
    ensures FromUnary(Unary0(cs), Unary1(cs)) == cs
  {
    if cs == [] {
    } else {
      FromUnaryInverts(cs[1..]);
      assert Unary0(cs)[1..] == Unary0(cs[1..]);
      assert cs == [cs[0]] + cs[1..];
      if cs[0] > 0 {
        assert Unary1(cs)[1..] == Unary1(cs[1..]);
      } else {
        assert Unary1(cs) == Unary1(cs[1..]);
      }
    }
  }

  lemma {:induction false} CountTrueSnoc(u: seq<bool>, b: bool)
    ensures CountTrue(u + [b]) == CountTrue(u) + if b then 1 else 0
  {
    if u == [] {
      assert u + [b] == [b];
      assert CountTrue([b]) == (if b then 1 else 0) + CountTrue([b][1..]);
    } else {
      assert (u + [b])[1..] == u[1..] + [b];
      CountTrueSnoc(u[1..], b);
    }
  }

  lemma {:induction false} Unary1Snoc(cs: seq<nat>, c: nat)
    ensures Unary1(cs + [c]) == Unary1(cs) + if c > 0 then [c > 1] else []
  {
    if cs == [] {
      assert cs + [c] == [c];
      assert Unary1([c]) == (if c > 0 then [c > 1] else []) + Unary1([c][1..]);
    } else {
      assert (cs + [c])[1..] == cs[1..] + [c];
      Unary1Snoc(cs[1..], c);
    }
  }

  /** Every symbol is at most t; a truncated code of a quotient at most 2 is that quotient. */
  lemma {:induction false} CodeSymbols(q: nat, t: nat)
    requires t >= 1
    ensures forall i :: 0 <= i < |Code(q, t)| ==> Code(q, t)[i] <= t
    ensures q < t ==> Code(q, t) == [q]
  {
    if q < t {
    } else {
      CodeSymbols(q - t, t);
    }
  }

  lemma {:induction false} CodesBounded(qs: seq<nat>, t: nat, bound: nat)
    requires t >= 1
    requires t <= bound || forall i :: 0 <= i < |qs| ==> qs[i] <= bound && qs[i] < t
    ensures forall i :: 0 <= i < |Codes(qs, t)| ==> Codes(qs, t)[i] <= bound
  {
    if qs == [] {
    } else {
      CodesBounded(qs[1..], t, bound);
      CodeSymbols(qs[0], t);
    }
  }
}

/**
 * The Reed-Solomon decoder of src/decoder/reed_solomon.rs: syndrome,
 * Berlekamp-Massey error locator, Chien search, Forney error values, and the
 * in-place correction of a block.
 *
 * Each step is a method proved against a function on sequences; `DecodeSpec`
 * composes those functions and the lemmas at the end state what a decode
 * result means. The field is a parameter (see module Gf256); the source
 * computes with its own tables, `Gf256.AsWritten()`.
 */
module ReedSolomon {
  import opened Wrappers
  import opened Gf256

  /** What makes `decode` fail; the source panics instead of `DivisionByZero`. */
  datatype RsError = WrongErrorCount | DivisionByZero | Uncorrectable

  /** Addition in GF(2^8): bitwise exclusive or. */
  function Xor(a: u8, b: u8): u8
  {
    ((a as bv8) ^ (b as bv8)) as u8
  }

  lemma XorZero(a: u8)
    ensures Xor(a, 0) == a && Xor(0, a) == a
  {
  }

  predicate AllZero(s: seq<u8>)
  {
    forall k :: 0 <= k < |s| ==> s[k] == 0
  }

  // ---------------------------------------------------------------- syndrome

  /**
   * The sum over j < k of received[j] * 2^((i * j) as u8): the exponent is
   * truncated to a byte, as `(i * j) as u8` does.
   */
  function SyndromeSum(gf: Field, r: seq<u8>, i: nat, k: nat): u8
    requires k <= |r|
  {
    if k == 0 then 0
    else Xor(SyndromeSum(gf, r, i, k - 1), Mul(gf, r[k - 1], Pow(gf, 2, (i * (k - 1)) % 256)))
  }

  /** The `numEcc` syndromes of a received block. */
  function Syndrome(gf: Field, r: seq<u8>, numEcc: nat): (s: seq<u8>)
    ensures |s| == numEcc
  {
    seq(numEcc, i requires 0 <= i < numEcc => SyndromeSum(gf, r, i, |r|))
  }

  /** `calculate_syndrome`. */
  method CalculateSyndrome(gf: Field, numEcc: nat, received: seq<u8>) returns (s: seq<u8>)
    ensures s == Syndrome(gf, received, numEcc)
  {
    var syn := new u8[numEcc](_ => 0);
    for i := 0 to numEcc
      invariant forall k :: 0 <= k < i ==> syn[k] == SyndromeSum(gf, received, k, |received|)
    {
      var sum := SyndromeEntry(gf, received, i);
      syn[i] := sum;
    }
    s := syn[..];
  }

  /** The inner loop over the received bytes, for syndrome i. */
  method SyndromeEntry(gf: Field, received: seq<u8>, i: nat) returns (sum: u8)
    ensures sum == SyndromeSum(gf, received, i, |received|)
  {
    sum := 0;
    for j := 0 to |received|
      invariant sum == SyndromeSum(gf, received, i, j)
    {
      var term := Mul(gf, received[j], Pow(gf, 2, (i * j) % 256));
      sum := Xor(sum, term);
    }
  }

  lemma {:induction false} ZeroSyndromeSum(gf: Field, r: seq<u8>, i: nat, k: nat)
    requires k <= |r| && AllZero(r)
    ensures SyndromeSum(gf, r, i, k) == 0
  {
    if k > 0 {
      ZeroSyndromeSum(gf, r, i, k - 1);
      assert Mul(gf, r[k - 1], Pow(gf, 2, (i * (k - 1)) % 256)) == 0;
      XorZero(0);
    }
  }

  /** The all-zero block has an all-zero syndrome. */
  lemma ZeroWordZeroSyndrome(gf: Field, r: seq<u8>, numEcc: nat)
    requires AllZero(r)
    ensures AllZero(Syndrome(gf, r, numEcc))
  {
    forall i | 0 <= i < numEcc
      ensures Syndrome(gf, r, numEcc)[i] == 0
    {
      ZeroSyndromeSum(gf, r, i, |r|);
    }
  }

  /**
   * The exponent wraps at 256 while the powers of 2 repeat every 255, so the
   * term for i * j == 256 uses 2^0 where 2^256 == 2^1 == 2 is meant.
   */
  lemma SyndromeExponentWraps(gf: Field)
    requires Inverse(gf) && Exp(gf, 0) == 1 && Exp(gf, 1) == 2
    ensures Pow(gf, 2, (16 * 16) % 256) == 1
    ensures PowRef(gf, 2, 256) == 2
  {
    TwoPowers(gf, 255);
    assert PowRef(gf, 2, 256) == Mul(gf, PowRef(gf, 2, 255), 2);
    MulIdentity(gf, 2);
  }

  /** 2^n by repeated multiplication is the antilog of n modulo 255; 2^255 == 1. */
  lemma {:induction false} TwoPowers(gf: Field, n: nat)
    requires Inverse(gf) && Exp(gf, 0) == 1 && Exp(gf, 1) == 2
    ensures PowRef(gf, 2, n) == Exp(gf, n % 255)
  {
    if n > 0 {
      TwoPowers(gf, n - 1);
      assert PowRef(gf, 2, n) == Mul(gf, PowRef(gf, 2, n - 1), 2);
      TwoPowersStep(gf, (n - 1) % 255);
      ModStep(n);
    }
  }

  /** One more factor 2 raises the logarithm by one, modulo 255. */
  lemma TwoPowersStep(gf: Field, m: nat)
    requires Inverse(gf) && Exp(gf, 0) == 1 && Exp(gf, 1) == 2 && m < 255
    ensures Mul(gf, Exp(gf, m), 2) == Exp(gf, (m + 1) % 255)
  {
    var p := Exp(gf, m);
    assert Log(gf, p) == m;
    assert Log(gf, 2) == 1 by {
      assert Log(gf, Exp(gf, 1)) == 1;
    }
    MulLog(gf, p, 2);
    var q := Mul(gf, p, 2);
    assert Log(gf, q) == (m + 1) % 255;
    assert Log(gf, Exp(gf, (m + 1) % 255)) == (m + 1) % 255;
    LogInjective(gf, q, Exp(gf, (m + 1) % 255));
  }

  lemma ModStep(n: nat)
    requires n > 0
    ensures ((n - 1) % 255 + 1) % 255 == n % 255
  {
  }

  // ------------------------------------------------------ Berlekamp-Massey

  /** The locator `sigma`, the previous locator `b`, the length `l` and the shift `m`. */
  datatype BmState = BmState(sigma: seq<u8>, b: seq<u8>, l: nat, m: nat)

  /** Both polynomials keep constant term 1, so `div(delta, b[0])` never panics. */
  predicate BmInv(st: BmState)
  {
    |st.sigma| >= 1 && st.sigma[0] == 1 && |st.b| >= 1 && st.b[0] == 1 && st.m >= 1
  }

  /** delta after the inner loop has run for j in 1..k. */
  function Discrepancy(gf: Field, sigma: seq<u8>, s: seq<u8>, i: nat, k: nat): u8
    requires i < |s|
  {
    if k == 0 then s[i]
    else
      var prev := Discrepancy(gf, sigma, s, i, k - 1);
      if k < |sigma| && i >= k then Xor(prev, Mul(gf, sigma[k], s[i - k])) else prev
  }

  /** `while sigma.len() < len { sigma.push(0) }`. */
  function PadTo(s: seq<u8>, len: nat): (r: seq<u8>)
    ensures |r| == if |s| < len then len else |s|
    ensures r[..|s|] == s
    ensures forall k :: |s| <= k < |r| ==> r[k] == 0
  {
    if |s| < len then s + seq(len - |s|, _ => 0) else s
  }

  /** sigma after `sigma[j + m] ^= mul(d, b[j])` for j < k (where in range). */
  function SubShifted(gf: Field, sigma: seq<u8>, d: u8, b: seq<u8>, m: nat, k: nat): (r: seq<u8>)
    requires k <= |b|
    ensures |r| == |sigma|
    ensures forall t :: 0 <= t < m && t < |sigma| ==> r[t] == sigma[t]
  {
    if k == 0 then sigma
    else
      var prev := SubShifted(gf, sigma, d, b, m, k - 1);
      var j := k - 1;
      if j + m < |prev| then prev[j + m := Xor(prev[j + m], Mul(gf, d, b[j]))] else prev
  }

  /** One iteration i of the outer loop. */
  function BmStep(gf: Field, s: seq<u8>, i: nat, st: BmState): (r: BmState)
    requires i < |s| && BmInv(st)
    ensures BmInv(r)
  {
    var delta := Discrepancy(gf, st.sigma, s, i, st.l);
    if delta == 0 then st.(m := st.m + 1)
    else
      var d := Div(gf, delta, st.b[0]);
      var padded := PadTo(st.sigma, |st.b| + st.m);
      var updated := SubShifted(gf, padded, d, st.b, st.m, |st.b|);
      if 2 * st.l <= i then BmState(updated, st.sigma, i + 1 - st.l, 1)
      else st.(sigma := updated, m := st.m + 1)
  }

  /** The state after the outer loop has run for i in 0..k. */
  function BmRun(gf: Field, s: seq<u8>, k: nat): (r: BmState)
    requires k <= |s|
    ensures BmInv(r)
  {
    if k == 0 then BmState([1], [1], 0, 1) else BmStep(gf, s, k - 1, BmRun(gf, s, k - 1))
  }

  /** `find_error_locator`: Berlekamp-Massey over the syndrome. */
  method FindErrorLocator(gf: Field, syndrome: seq<u8>) returns (sigma: seq<u8>)
    ensures sigma == BmRun(gf, syndrome, |syndrome|).sigma
    ensures |sigma| >= 1 && sigma[0] == 1
  {
    sigma := [1];
    var b: seq<u8> := [1];
    var l: nat := 0;
    var m: nat := 1;
    for i := 0 to |syndrome|
      invariant BmState(sigma, b, l, m) == BmRun(gf, syndrome, i)
    {
      sigma, b, l, m := BmIteration(gf, syndrome, i, sigma, b, l, m);
    }
  }

  /** The body of the outer loop, for iteration i. */
  method BmIteration(gf: Field, syndrome: seq<u8>, i: nat, sigma0: seq<u8>, b0: seq<u8>, l0: nat, m0: nat)
    returns (sigma: seq<u8>, b: seq<u8>, l: nat, m: nat)
    requires i < |syndrome| && BmInv(BmState(sigma0, b0, l0, m0))
    ensures BmState(sigma, b, l, m) == BmStep(gf, syndrome, i, BmState(sigma0, b0, l0, m0))
  {
    sigma, b, l, m := sigma0, b0, l0, m0;
    var delta := ComputeDiscrepancy(gf, sigma, syndrome, i, l);
    if delta == 0 {
      m := m + 1;
    } else {
      var sigmaNew := sigma;
      var d := Div(gf, delta, b[0]);
      sigma := ExtendWithZeros(sigma, |b| + m);
      sigma := SubtractShifted(gf, sigma, d, b, m);
      if 2 * l <= i {
        b := sigmaNew;
        l := i + 1 - l;
        m := 1;
      } else {
        m := m + 1;
      }
    }
  }

  /** The `for j in 1..=l` loop computing delta. */
  method ComputeDiscrepancy(gf: Field, sigma: seq<u8>, syndrome: seq<u8>, i: nat, l: nat) returns (delta: u8)
    requires i < |syndrome|
    ensures delta == Discrepancy(gf, sigma, syndrome, i, l)
  {
    delta := syndrome[i];
    for j := 1 to l + 1
      invariant delta == Discrepancy(gf, sigma, syndrome, i, j - 1)
    {
      if j < |sigma| && i >= j {
        delta := Xor(delta, Mul(gf, sigma[j], syndrome[i - j]));
      }
    }
  }

  /** The `while sigma.len() < len { sigma.push(0) }` loop. */
  method ExtendWithZeros(s: seq<u8>, len: nat) returns (r: seq<u8>)
    ensures r == PadTo(s, len)
  {
    r := s;
    while |r| < len
      invariant |s| <= |r| <= if |s| < len then len else |s|
      invariant r == s + seq(|r| - |s|, _ => 0)
      decreases len - |r|
    {
      r := r + [0];
    }
  }

  /** The `for j in 0..b.len()` loop subtracting d * x^m * b from sigma. */
  method SubtractShifted(gf: Field, sigma: seq<u8>, d: u8, b: seq<u8>, m: nat) returns (r: seq<u8>)
    ensures r == SubShifted(gf, sigma, d, b, m, |b|)
  {
    r := sigma;
    for j := 0 to |b|
      invariant r == SubShifted(gf, sigma, d, b, m, j)
    {
      var term := Mul(gf, d, b[j]);
      if j + m < |r| {
        r := r[j + m := Xor(r[j + m], term)];
      }
    }
  }

  // ----------------------------------------------------------- Chien search

  /** The sum over j < k of coeffs[j] * x^(j as u8). */
  function Eval(gf: Field, coeffs: seq<u8>, x: u8, k: nat): u8
    requires k <= |coeffs|
  {
    if k == 0 then 0 else Xor(Eval(gf, coeffs, x, k - 1), Mul(gf, coeffs[k - 1], Pow(gf, x, (k - 1) % 256)))
  }

  /** The point evaluated for position i of an n-byte block: 2^((n - 1 - i) as u8). */
  function ChienPoint(gf: Field, n: nat, i: nat): u8
    requires i < n
  {
    Pow(gf, 2, (n - 1 - i) % 256)
  }

  /** The positions i < k at which sigma vanishes, in ascending order. */
  function ChienRoots(gf: Field, sigma: seq<u8>, n: nat, k: nat): seq<nat>
    requires k <= n
  {
    if k == 0 then []
    else
      var prev := ChienRoots(gf, sigma, n, k - 1);
      if Eval(gf, sigma, ChienPoint(gf, n, k - 1), |sigma|) == 0 then prev + [k - 1] else prev
  }

  /** `find_error_positions`: the roots, unless their number is not deg(sigma). */
  function ErrorPositions(gf: Field, sigma: seq<u8>, n: nat): (r: Result<seq<nat>, RsError>)
    requires |sigma| >= 1
    ensures r.Ok? ==> |r.value| == |sigma| - 1 && forall t :: 0 <= t < |r.value| ==> r.value[t] < n
  {
    ChienRootsBelow(gf, sigma, n, n);
    var roots := ChienRoots(gf, sigma, n, n);
    if |roots| != |sigma| - 1 then Err(WrongErrorCount) else Ok(roots)
  }

  method FindErrorPositions(gf: Field, sigma: seq<u8>, n: nat) returns (r: Result<seq<nat>, RsError>)
    requires |sigma| >= 1
    ensures r == ErrorPositions(gf, sigma, n)
  {
    var positions: seq<nat> := [];
    for i := 0 to n
      invariant positions == ChienRoots(gf, sigma, n, i)
    {
      var x := Pow(gf, 2, (n - 1 - i) % 256);
      var sum := EvalMethod(gf, sigma, x);
      if sum == 0 {
        positions := positions + [i];
      }
    }
    if |positions| != |sigma| - 1 {
      return Err(WrongErrorCount);
    }
    return Ok(positions);
  }

  /** The evaluation loop `for (j, &coeff) in coeffs.iter().enumerate()`. */
  method EvalMethod(gf: Field, coeffs: seq<u8>, x: u8) returns (sum: u8)
    ensures sum == Eval(gf, coeffs, x, |coeffs|)
  {
    sum := 0;
    for j := 0 to |coeffs|
      invariant sum == Eval(gf, coeffs, x, j)
    {
      var term := Mul(gf, coeffs[j], Pow(gf, x, j % 256));
      sum := Xor(sum, term);
    }
  }

  /** Every root is a position below k. */
  lemma {:induction false} ChienRootsBelow(gf: Field, sigma: seq<u8>, n: nat, k: nat)
    requires k <= n
    ensures forall t :: 0 <= t < |ChienRoots(gf, sigma, n, k)| ==> ChienRoots(gf, sigma, n, k)[t] < k
  {
    if k > 0 {
      ChienRootsBelow(gf, sigma, n, k - 1);
    }
  }

  /** The roots are listed in strictly ascending order. */
  lemma {:induction false} ChienRootsAscending(gf: Field, sigma: seq<u8>, n: nat, k: nat)
    requires k <= n
    ensures forall a, c :: 0 <= a < c < |ChienRoots(gf, sigma, n, k)| ==>
      ChienRoots(gf, sigma, n, k)[a] < ChienRoots(gf, sigma, n, k)[c]
  {
    if k > 0 {
      ChienRootsAscending(gf, sigma, n, k - 1);
      ChienRootsBelow(gf, sigma, n, k - 1);
    }
  }

  /** A position is a root exactly when it is in range and sigma vanishes there. */
  lemma {:induction false} ChienRootsMembers(gf: Field, sigma: seq<u8>, n: nat, k: nat, p: nat)
    requires k <= n
    ensures p in ChienRoots(gf, sigma, n, k) <==>
      p < k && Eval(gf, sigma, ChienPoint(gf, n, p), |sigma|) == 0
  {
    if k > 0 {
      ChienRootsMembers(gf, sigma, n, k - 1, p);
      ChienRootsBelow(gf, sigma, n, k - 1);
      var prev := ChienRoots(gf, sigma, n, k - 1);
      if p == k - 1 {
        assert p !in prev;
      }
    }
  }

  // ------------------------------------------------------------------ Forney

  /** omega[i] after its inner loop has run for j in 0..k. */
  function OmegaSum(gf: Field, sigma: seq<u8>, s: seq<u8>, i: nat, k: nat): u8
    requires i < |s| && k <= i + 1
  {
    if k == 0 then 0
    else
      var prev := OmegaSum(gf, sigma, s, i, k - 1);
      var j := k - 1;
      if j < |sigma| then Xor(prev, Mul(gf, sigma[j], s[i - j])) else prev
  }

  /** omega = syndrome * sigma mod x^|syndrome|. */
  function Omega(gf: Field, sigma: seq<u8>, s: seq<u8>): (r: seq<u8>)
    ensures |r| == |s|
  {
    seq(|s|, i requires 0 <= i < |s| => OmegaSum(gf, sigma, s, i, i + 1))
  }

  /** The formal derivative of sigma at x: the odd terms, each one power lower. */
  function SigmaPrime(gf: Field, sigma: seq<u8>, x: u8, k: nat): u8
    requires k <= |sigma|
  {
    if k == 0 then 0
    else
      var prev := SigmaPrime(gf, sigma, x, k - 1);
      var i := k - 1;
      if i % 2 == 1 then Xor(prev, Mul(gf, sigma[i], Pow(gf, x, (i - 1) % 256))) else prev
  }

  /** The point for a position: 2^((pos as u8).wrapping_neg()). */
  function ForneyPoint(gf: Field, pos: nat): u8
  {
    Pow(gf, 2, (256 - pos % 256) % 256)
  }

  /** The error value at one position; `DivisionByZero` where the source panics. */
  function ErrorValue(gf: Field, sigma: seq<u8>, omega: seq<u8>, pos: nat): Result<u8, RsError>
  {
    var x := ForneyPoint(gf, pos);
    var num := Eval(gf, omega, x, |omega|);
    var den := SigmaPrime(gf, sigma, x, |sigma|);
    if den == 0 then Err(DivisionByZero) else Ok(Div(gf, num, den))
  }

  /** The values for the first k positions, or the first failure. */
  function ErrorValuesUpTo(gf: Field, sigma: seq<u8>, omega: seq<u8>, positions: seq<nat>, k: nat)
    : (r: Result<seq<u8>, RsError>)
    requires k <= |positions|
    ensures r.Ok? ==> |r.value| == k
  {
    if k == 0 then Ok([])
    else
      match ErrorValuesUpTo(gf, sigma, omega, positions, k - 1)
      case Err(e) => Err(e)
      case Ok(vs) =>
        match ErrorValue(gf, sigma, omega, positions[k - 1])
        case Err(e) => Err(e)
        case Ok(v) => Ok(vs + [v])
  }

  /** Once a position fails, every longer prefix fails the same way. */
  lemma {:induction false} ErrorSticks(gf: Field, sigma: seq<u8>, omega: seq<u8>, positions: seq<nat>, k: nat, n: nat)
    requires k <= n <= |positions|
    requires ErrorValuesUpTo(gf, sigma, omega, positions, k).Err?
    ensures ErrorValuesUpTo(gf, sigma, omega, positions, n) == ErrorValuesUpTo(gf, sigma, omega, positions, k)
  {
    if n > k {
      ErrorSticks(gf, sigma, omega, positions, k, n - 1);
    }
  }

  /** `find_error_values`. */
  function ErrorValues(gf: Field, sigma: seq<u8>, s: seq<u8>, positions: seq<nat>)
    : (r: Result<seq<u8>, RsError>)
    ensures r.Ok? ==> |r.value| == |positions|
  {
    ErrorValuesUpTo(gf, sigma, Omega(gf, sigma, s), positions, |positions|)
  }

  method FindErrorValues(gf: Field, sigma: seq<u8>, syndrome: seq<u8>, positions: seq<nat>)
    returns (r: Result<seq<u8>, RsError>)
    ensures r == ErrorValues(gf, sigma, syndrome, positions)
  {
    var om := ComputeOmega(gf, sigma, syndrome);
    var values: seq<u8> := [];
    for k := 0 to |positions|
      invariant ErrorValuesUpTo(gf, sigma, om, positions, k) == Ok(values)
    {
      var v := ComputeErrorValue(gf, sigma, om, positions[k]);
      if v.Err? {
        ErrorSticks(gf, sigma, om, positions, k + 1, |positions|);
        return Err(v.error);
      }
      values := values + [v.value];
    }
    return Ok(values);
  }

  /** The body of the loop over the error positions. */
  method ComputeErrorValue(gf: Field, sigma: seq<u8>, omega: seq<u8>, pos: nat) returns (r: Result<u8, RsError>)
    ensures r == ErrorValue(gf, sigma, omega, pos)
  {
    var x := Pow(gf, 2, (256 - pos % 256) % 256);
    var omegaVal := EvalMethod(gf, omega, x);
    var sigmaPrimeVal := SigmaPrimeMethod(gf, sigma, x);
    if sigmaPrimeVal == 0 {
      return Err(DivisionByZero);
    }
    return Ok(Div(gf, omegaVal, sigmaPrimeVal));
  }

  /** The nested loops filling omega. */
  method ComputeOmega(gf: Field, sigma: seq<u8>, syndrome: seq<u8>) returns (om: seq<u8>)
    ensures om == Omega(gf, sigma, syndrome)
  {
    ghost var spec := Omega(gf, sigma, syndrome);
    var omega := new u8[|syndrome|](_ => 0);
    for i := 0 to |syndrome|
      invariant omega[..i] == spec[..i]
    {
      // omega[i] still holds the 0 it was created with.
      var acc := OmegaEntry(gf, sigma, syndrome, i);
      omega[i] := acc;
      assert omega[..i + 1] == spec[..i] + [spec[i]];
    }
    assert omega[..] == omega[..|syndrome|];
    om := omega[..];
  }

  /** The inner loop `for j in 0..=i`, starting from the zero entry of omega. */
  method OmegaEntry(gf: Field, sigma: seq<u8>, syndrome: seq<u8>, i: nat) returns (acc: u8)
    requires i < |syndrome|
    ensures acc == OmegaSum(gf, sigma, syndrome, i, i + 1)
  {
    acc := 0;
    for j := 0 to i + 1
      invariant acc == OmegaSum(gf, sigma, syndrome, i, j)
    {
      if j < |sigma| {
        acc := Xor(acc, Mul(gf, sigma[j], syndrome[i - j]));
      }
    }
  }

  /** The loop over the odd coefficients of sigma. */
  method SigmaPrimeMethod(gf: Field, sigma: seq<u8>, x: u8) returns (sum: u8)
    ensures sum == SigmaPrime(gf, sigma, x, |sigma|)
  {
    sum := 0;
    for i := 0 to |sigma|
      invariant sum == SigmaPrime(gf, sigma, x, i)
    {
      if i % 2 == 1 {
        sum := Xor(sum, Mul(gf, sigma[i], Pow(gf, x, (i - 1) % 256)));
      }
    }
  }

  // ------------------------------------------------------------------ decode

  /** `received[pos] ^= values[i]` for the first k positions. */
  function Corrected(word: seq<u8>, positions: seq<nat>, values: seq<u8>, k: nat): (r: seq<u8>)
    requires k <= |positions| == |values|
    requires forall i :: 0 <= i < |positions| ==> positions[i] < |word|
    ensures |r| == |word|
  {
    if k == 0 then word
    else
      var prev := Corrected(word, positions, values, k - 1);
      var p := positions[k - 1];
      prev[p := Xor(prev[p], values[k - 1])]
  }

  /** Which step ends a decode, and the word it leaves. */
  datatype Outcome = Outcome(word: seq<u8>, result: Result<(), RsError>)

  /** `ReedSolomonDecoder::decode` on a block, with its number of EC codewords. */
  function DecodeSpec(gf: Field, numEcc: nat, r: seq<u8>): (o: Outcome)
    ensures |o.word| == |r|
  {
    var syn := Syndrome(gf, r, numEcc);
    if AllZero(syn) then Outcome(r, Ok(()))
    else
      var sigma := BmRun(gf, syn, |syn|).sigma;
      match ErrorPositions(gf, sigma, |r|)
      case Err(e) => Outcome(r, Err(e))
      case Ok(positions) =>
        match ErrorValues(gf, sigma, syn, positions)
        case Err(e) => Outcome(r, Err(e))
        case Ok(values) =>
          var fixed := Corrected(r, positions, values, |positions|);
          if AllZero(Syndrome(gf, fixed, numEcc)) then Outcome(fixed, Ok(())) else Outcome(fixed, Err(Uncorrectable))
  }

  method Decode(gf: Field, numEcc: nat, received: array<u8>) returns (res: Result<(), RsError>)
    modifies received
    ensures Outcome(received[..], res) == DecodeSpec(gf, numEcc, old(received[..]))
  {
    var syndrome := CalculateSyndrome(gf, numEcc, received[..]);
    if forall k :: 0 <= k < |syndrome| ==> syndrome[k] == 0 {
      return Ok(());
    }
    var sigma := FindErrorLocator(gf, syndrome);
    var positionsResult := FindErrorPositions(gf, sigma, received.Length);
    if positionsResult.Err? {
      return Err(positionsResult.error);
    }
    var positions := positionsResult.value;
    var valuesResult := FindErrorValues(gf, sigma, syndrome, positions);
    if valuesResult.Err? {
      return Err(valuesResult.error);
    }
    var values := valuesResult.value;
    ApplyCorrections(received, positions, values);
    var newSyndrome := CalculateSyndrome(gf, numEcc, received[..]);
    if exists k :: 0 <= k < |newSyndrome| && newSyndrome[k] != 0 {
      return Err(Uncorrectable);
    }
    return Ok(());
  }

  /** The loop `received[pos] ^= error_values[i]`. */
  method ApplyCorrections(received: array<u8>, positions: seq<nat>, values: seq<u8>)
    requires |positions| == |values|
    requires forall i :: 0 <= i < |positions| ==> positions[i] < received.Length
    modifies received
    ensures received[..] == Corrected(old(received[..]), positions, values, |positions|)
  {
    ghost var original := received[..];
    for i := 0 to |positions|
      invariant received[..] == Corrected(original, positions, values, i)
    {
      var pos := positions[i];
      received[pos] := Xor(received[pos], values[i]);
    }
  }

  /** A successful decode always leaves a word whose syndrome is zero. */
  lemma DecodeOkMeansZeroSyndrome(gf: Field, numEcc: nat, r: seq<u8>)
    ensures DecodeSpec(gf, numEcc, r).result.Ok? ==>
      AllZero(Syndrome(gf, DecodeSpec(gf, numEcc, r).word, numEcc))
  {
  }

  /** A word with an all-zero syndrome is accepted unchanged. */
  lemma CleanWordUnchanged(gf: Field, numEcc: nat, r: seq<u8>)
    requires AllZero(Syndrome(gf, r, numEcc))
    ensures DecodeSpec(gf, numEcc, r) == Outcome(r, Ok(()))
  {
  }

  /** In particular the all-zero block is accepted unchanged. */
  lemma ZeroWordAccepted(gf: Field, numEcc: nat, r: seq<u8>)
    requires AllZero(r)
    ensures DecodeSpec(gf, numEcc, r) == Outcome(r, Ok(()))
  {
    ZeroWordZeroSyndrome(gf, r, numEcc);
  }

  /** A failed root count is an error and leaves the word unchanged. */
  lemma WrongRootCountFails(gf: Field, numEcc: nat, r: seq<u8>)
    requires !AllZero(Syndrome(gf, r, numEcc))
    requires |ChienRoots(gf, BmRun(gf, Syndrome(gf, r, numEcc), numEcc).sigma, |r|, |r|)| !=
      |BmRun(gf, Syndrome(gf, r, numEcc), numEcc).sigma| - 1
    ensures DecodeSpec(gf, numEcc, r) == Outcome(r, Err(WrongErrorCount))
  {
  }

  /** Correction changes only the located positions. */
  lemma {:induction false} CorrectedFrame(word: seq<u8>, positions: seq<nat>, values: seq<u8>, k: nat)
    requires k <= |positions| == |values|
    requires forall i :: 0 <= i < |positions| ==> positions[i] < |word|
    ensures forall q :: 0 <= q < |word| && q !in positions[..k] ==> Corrected(word, positions, values, k)[q] == word[q]
  {
    if k > 0 {
      CorrectedFrame(word, positions, values, k - 1);
      assert positions[..k] == positions[..k - 1] + [positions[k - 1]];
    }
  }

  /** Whatever the outcome, decode changes only positions where sigma vanishes. */
  lemma DecodeChangesOnlyRoots(gf: Field, numEcc: nat, r: seq<u8>, q: nat)
    requires q < |r|
    requires DecodeSpec(gf, numEcc, r).word[q] != r[q]
    ensures !AllZero(Syndrome(gf, r, numEcc))
    ensures var sigma := BmRun(gf, Syndrome(gf, r, numEcc), numEcc).sigma;
      Eval(gf, sigma, ChienPoint(gf, |r|, q), |sigma|) == 0
  {
    var syn := Syndrome(gf, r, numEcc);
    var sigma := BmRun(gf, syn, |syn|).sigma;
    var positions := ErrorPositions(gf, sigma, |r|).value;
    var values := ErrorValues(gf, sigma, syn, positions).value;
    CorrectedFrame(r, positions, values, |positions|);
    assert positions[..|positions|] == positions;
    ChienRootsMembers(gf, sigma, |r|, |r|, q);
  }

  // ------------------------------------------------- the tables make a difference

  /**
   * Over the source's tables the block [7, 185] with one EC codeword has a
   * zero syndrome, 1 * 7 and 1 * 185 both coming out as 185, and is accepted.
   */
  lemma TwoByteBlockAsWritten()
    ensures DecodeSpec(AsWritten(), 1, [7, 185]) == Outcome([7, 185], Ok(()))
  {
    SampleEntriesAsWritten();
    TwoByteBlockAccepted(AsWritten());
  }

  /**
   * Over the true field the same block has syndrome 7 xor 185 = 190, the
   * locator 1 + 190x has no root among the two positions, and the decode
   * fails with a wrong error count.
   */
  lemma TwoByteBlockStandard()
    ensures DecodeSpec(Standard(), 1, [7, 185]) == Outcome([7, 185], Err(WrongErrorCount))
  {
    SampleEntriesStandard();
    TwoByteBlockRejected(Standard());
  }

  /** The decode of [7, 185] over any tables with the source's entries. */
  lemma TwoByteBlockAccepted(f: Field)
    requires Log(f, 1) == 0 && Log(f, 7) == 198 && Log(f, 185) == 60
    requires Exp(f, 0) == 1 && Exp(f, 60) == 185 && Exp(f, 198) == 185
    ensures DecodeSpec(f, 1, [7, 185]) == Outcome([7, 185], Ok(()))
  {
    assert Pow(f, 2, 0) == 1;
    assert Mul(f, 7, 1) == 185 && Mul(f, 185, 1) == 185;
    XorZero(185);
    assert SyndromeSum(f, [7, 185], 0, 1) == 185;
    assert SyndromeSum(f, [7, 185], 0, 2) == 0;
    assert AllZero(Syndrome(f, [7, 185], 1));
  }

  /** The decode of [7, 185] over any tables with the true field's entries. */
  lemma TwoByteBlockRejected(f: Field)
    requires Log(f, 1) == 0 && Log(f, 2) == 1 && Log(f, 7) == 198
    requires Log(f, 185) == 60 && Log(f, 190) == 65
    requires Exp(f, 0) == 1 && Exp(f, 1) == 2 && Exp(f, 60) == 185
    requires Exp(f, 65) == 190 && Exp(f, 66) == 97 && Exp(f, 198) == 7
    ensures DecodeSpec(f, 1, [7, 185]) == Outcome([7, 185], Err(WrongErrorCount))
  {
    var syn := Syndrome(f, [7, 185], 1);
    TwoByteSyndrome(f);
    TwoByteLocator(f, syn);
    TwoByteNoRoots(f);
    assert ErrorPositions(f, [1, 190], 2) == Err(WrongErrorCount);
  }

  lemma TwoByteSyndrome(f: Field)
    requires Log(f, 1) == 0 && Log(f, 7) == 198 && Log(f, 185) == 60
    requires Exp(f, 0) == 1 && Exp(f, 60) == 185 && Exp(f, 198) == 7
    ensures Syndrome(f, [7, 185], 1) == [190]
  {
    assert Pow(f, 2, 0) == 1;
    assert Mul(f, 7, 1) == 7 && Mul(f, 185, 1) == 185;
    XorZero(7);
    assert SyndromeSum(f, [7, 185], 0, 1) == 7;
    assert SyndromeSum(f, [7, 185], 0, 2) == 190;
  }

  lemma TwoByteLocator(f: Field, syn: seq<u8>)
    requires Log(f, 1) == 0 && Log(f, 190) == 65 && Exp(f, 65) == 190
    requires syn == [190]
    ensures BmRun(f, syn, |syn|).sigma == [1, 190]
  {
    var start := BmState([1], [1], 0, 1);
    assert Discrepancy(f, start.sigma, syn, 0, start.l) == 190;
    TwoByteProducts(f);
    var padded := PadTo(start.sigma, 2);
    assert padded[..1] == [1];
    TwoByteUpdate(f, padded);
    assert BmStep(f, syn, 0, start).sigma == [1, 190];
  }

  lemma TwoByteProducts(f: Field)
    requires Log(f, 1) == 0 && Log(f, 190) == 65 && Exp(f, 65) == 190
    ensures Div(f, 190, 1) == 190 && Mul(f, 190, 1) == 190
  {
  }

  lemma TwoByteUpdate(f: Field, padded: seq<u8>)
    requires Mul(f, 190, 1) == 190 && |padded| == 2 && padded[0] == 1 && padded[1] == 0
    ensures SubShifted(f, padded, 190, [1], 1, 1) == [1, 190]
  {
    XorZero(190);
  }

  lemma TwoByteNoRoots(f: Field)
    requires Log(f, 1) == 0 && Log(f, 2) == 1 && Log(f, 190) == 65
    requires Exp(f, 0) == 1 && Exp(f, 1) == 2 && Exp(f, 65) == 190 && Exp(f, 66) == 97
    ensures ChienRoots(f, [1, 190], 2, 2) == []
  {
    assert ChienPoint(f, 2, 0) == 2 && ChienPoint(f, 2, 1) == 1;
    assert Pow(f, 2, 1) == 2 && Pow(f, 1, 1) == 1 && Mul(f, 1, 1) == 1;
    assert Mul(f, 190, 2) == 97 && Mul(f, 190, 1) == 190;
    EvalLinear(f, 190, 2);
    EvalLinear(f, 190, 1);
    assert Xor(1, 97) != 0 && Xor(1, 190) != 0;
    assert ChienRoots(f, [1, 190], 2, 1) == [];
  }

  /** 1 + b x at a point x. */
  lemma EvalLinear(f: Field, b: u8, x: u8)
    requires Mul(f, 1, 1) == 1
    ensures Eval(f, [1, b], x, 2) == Xor(1, Mul(f, b, Pow(f, x, 1)))
  {
    var c: seq<u8> := [1, b];
    XorZero(1);
    assert Eval(f, c, x, 1) == Xor(0, Mul(f, 1, Pow(f, x, 0)));
  }

  /** `decode` gives a different result over the source's tables than over the true field. */
  lemma DecodeDependsOnTables()
    ensures DecodeSpec(AsWritten(), 1, [7, 185]) != DecodeSpec(Standard(), 1, [7, 185])
  {
    TwoByteBlockAsWritten();
    TwoByteBlockStandard();
  }
}

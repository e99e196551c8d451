/**
 Exchange rates. Setting a rate also sets the reverse one to its reciprocal; pairs are
 stored under "FROM-TO" strings.
 */
module Exchange {
  import opened Outcomes

  /** fee is a percentage. */
  datatype Rate = Rate(from: string, to: string, rate: real, fee: real)

  type Rates = map<string, Rate>

  datatype Error = InvalidPair

  function Key(from: string, to: string): string { from + "-" + to }

  predicate HyphenFree(s: string) { '-' !in s }

  /** Position of the first hyphen, or the length. */
  function UpToHyphen(s: string): nat { if s == "" || s[0] == '-' then 0 else 1 + UpToHyphen(s[1..]) }

  lemma {:induction false} FirstHyphen(a: string, b: string)
    requires HyphenFree(a)
    ensures UpToHyphen(Key(a, b)) == |a|
  {
    if a != "" {
      assert Key(a, b)[1..] == Key(a[1..], b);
      FirstHyphen(a[1..], b);
    }
  }

  /** Hyphen-free symbols can be read back off their key. */
  lemma KeyInjective(a: string, b: string, c: string, d: string)
    requires HyphenFree(a) && HyphenFree(c)
    ensures Key(a, b) == Key(c, d) ==> a == c && b == d
  {
    if Key(a, b) == Key(c, d) {
      FirstHyphen(a, b);
      FirstHyphen(c, d);
      assert a == Key(a, b)[..|a|] && c == Key(c, d)[..|c|];
      assert b == Key(a, b)[|a| + 1..] && d == Key(c, d)[|c| + 1..];
    }
  }

  function Set(rs: Rates, from: string, to: string, rate: real, fee: real): Rates
    requires rate != 0.0
  {
    rs[Key(from, to) := Rate(from, to, rate, fee)][Key(to, from) := Rate(to, from, 1.0 / rate, fee)]
  }

  function Get(rs: Rates, from: string, to: string): Result<Rate, Error> {
    if Key(from, to) in rs then Ok(rs[Key(from, to)]) else Err(InvalidPair)
  }

  function Scaled(x: real, factor: real): real { x * factor }

  /** Amount out and fee taken. */
  function Calculate(rs: Rates, from: string, to: string, amount: real): Result<(real, real), Error> {
    match Get(rs, from, to)
    case Err(e) => Err(e)
    case Ok(r) =>
      var toAmount := Scaled(amount, r.rate);
      var fee := Scaled(toAmount, r.fee / 100.0);
      Ok((toAmount - fee, fee))
  }

  class RateBook {
    var rates: Rates

    constructor ()
      ensures rates == map[]
    {
      rates := map[];
    }

    method SetExchangeRate(fromAsset: string, toAsset: string, rate: real, fee: real)
      requires rate != 0.0
      modifies this
      ensures rates == Set(old(rates), fromAsset, toAsset, rate, fee)
      ensures var key, reverse := fromAsset + "-" + toAsset, toAsset + "-" + fromAsset;
              && rates.Keys == old(rates).Keys + {key, reverse}
              && rates[reverse] == Rate(toAsset, fromAsset, 1.0 / rate, fee)
              && (key != reverse ==> rates[key] == Rate(fromAsset, toAsset, rate, fee))
              && forall k :: k in old(rates) && k != key && k != reverse ==> rates[k] == old(rates)[k]
    {
      var key := Key(fromAsset, toAsset);
      rates := rates[key := Rate(fromAsset, toAsset, rate, fee)];
      var reverseKey := Key(toAsset, fromAsset);
      rates := rates[reverseKey := Rate(toAsset, fromAsset, 1.0 / rate, fee)];
    }

    method GetExchangeRate(fromAsset: string, toAsset: string) returns (r: Result<Rate, Error>)
      ensures r == Get(rates, fromAsset, toAsset)
      ensures var key := fromAsset + "-" + toAsset;
              r == if key in rates then Ok(rates[key]) else Err(InvalidPair)
    {
      var key := Key(fromAsset, toAsset);
      if key !in rates {
        return Err(InvalidPair);
      }
      return Ok(rates[key]);
    }

    method CalculateExchange(fromAsset: string, toAsset: string, fromAmount: real)
      returns (r: Result<(real, real), Error>)
      ensures r == Calculate(rates, fromAsset, toAsset, fromAmount)
      ensures var key := fromAsset + "-" + toAsset;
              if key in rates then
                && r.Ok? && r.value.0 + r.value.1 == fromAmount * rates[key].rate
                && r.value.1 * 100.0 == fromAmount * rates[key].rate * rates[key].fee
              else r == Err(InvalidPair)
    {
      var rate := GetExchangeRate(fromAsset, toAsset);
      if rate.Err? {
        return Err(rate.error);
      }
      var toAmount := Scaled(fromAmount, rate.value.rate);
      var fee := Scaled(toAmount, rate.value.fee / 100.0);
      var finalAmount := toAmount - fee;
      return Ok((finalAmount, fee));
    }
  }

  // ---------- updates ----------

  datatype Update = Update(from: string, to: string, rate: real, fee: real)

  /** A positive rate and a fee of 0 to 100 percent. */
  predicate Positive(u: Update) { u.rate > 0.0 && 0.0 <= u.fee <= 100.0 }

  /** Distinct hyphen-free symbols. */
  predicate Proper(u: Update) { HyphenFree(u.from) && HyphenFree(u.to) && u.from != u.to }

  function After(us: seq<Update>): Rates
    requires forall u :: u in us ==> Positive(u)
  {
    if us == [] then map[]
    else
      var u := us[|us| - 1];
      assert u in us && Positive(u);
      Set(After(us[..|us| - 1]), u.from, u.to, u.rate, u.fee)
  }

  /** A pair is quoted both ways or not at all, at reciprocal rates and the same fee. */
  ghost predicate Reciprocal(rs: Rates, a: string, b: string) {
    && (Key(a, b) in rs <==> Key(b, a) in rs)
    && (Key(a, b) in rs ==>
          && rs[Key(a, b)].rate > 0.0 && rs[Key(b, a)].rate > 0.0
          && rs[Key(a, b)].rate * rs[Key(b, a)].rate == 1.0
          && rs[Key(a, b)].fee == rs[Key(b, a)].fee && 0.0 <= rs[Key(a, b)].fee <= 100.0)
  }

  lemma Inverse(rate: real)
    requires rate > 0.0
    ensures 1.0 / rate > 0.0 && rate * (1.0 / rate) == 1.0
  {}

  lemma SetReciprocal(rs: Rates, u: Update, a: string, b: string)
    requires Positive(u) && Proper(u) && HyphenFree(a) && HyphenFree(b) && a != b && Reciprocal(rs, a, b)
    ensures Reciprocal(Set(rs, u.from, u.to, u.rate, u.fee), a, b)
  {
    Inverse(u.rate);
    KeyInjective(u.from, u.to, a, b);
    KeyInjective(u.from, u.to, b, a);
    KeyInjective(u.to, u.from, a, b);
    KeyInjective(u.to, u.from, b, a);
    KeyInjective(u.from, u.to, u.to, u.from);
  }

  /** After any positive updates of such symbols, in any order and with any overwriting, every pair is reciprocal. */
  lemma {:induction false} AlwaysReciprocal(us: seq<Update>, a: string, b: string)
    requires forall u :: u in us ==> Positive(u) && Proper(u)
    requires HyphenFree(a) && HyphenFree(b) && a != b
    ensures Reciprocal(After(us), a, b)
  {
    if us != [] {
      assert us[|us| - 1] in us;
      AlwaysReciprocal(us[..|us| - 1], a, b);
      SetReciprocal(After(us[..|us| - 1]), us[|us| - 1], a, b);
    }
  }

  /** The last update of a pair, made in either direction. */
  function LastUpdate(us: seq<Update>, a: string, b: string): Option<Update> {
    if us == [] then None
    else
      var u := us[|us| - 1];
      if (u.from == a && u.to == b) || (u.from == b && u.to == a) then Some(u) else LastUpdate(us[..|us| - 1], a, b)
  }

  /** The rate from a to b that an update of the pair, in either direction, says. */
  function RateSaid(u: Update, a: string): real
    requires u.rate > 0.0
  {
    if u.from == a then u.rate else 1.0 / u.rate
  }

  lemma QuoteStep(rs: Rates, u: Update, a: string, b: string)
    requires Positive(u) && Proper(u) && HyphenFree(a) && HyphenFree(b) && a != b
    ensures var rs' := Set(rs, u.from, u.to, u.rate, u.fee);
            if (u.from == a && u.to == b) || (u.from == b && u.to == a) then
              Key(a, b) in rs' && rs'[Key(a, b)] == Rate(a, b, RateSaid(u, a), u.fee)
            else
              (Key(a, b) in rs' <==> Key(a, b) in rs) && (Key(a, b) in rs ==> rs'[Key(a, b)] == rs[Key(a, b)])
  {
    KeyInjective(u.from, u.to, a, b);
    KeyInjective(u.to, u.from, a, b);
    KeyInjective(u.from, u.to, u.to, u.from);
  }

  /**
   Quotes, read off the history: after any positive updates of distinct hyphen-free symbols, a
   pair is quoted iff it was ever updated, at exactly the fee of its last update and at that
   update's rate, or its reciprocal if that update was made from the other side.
   */
  lemma {:induction false} QuoteIsLastUpdate(us: seq<Update>, a: string, b: string)
    requires forall u :: u in us ==> Positive(u) && Proper(u)
    requires HyphenFree(a) && HyphenFree(b) && a != b
    ensures LastUpdate(us, a, b).Some? ==> LastUpdate(us, a, b).value in us
    ensures Key(a, b) in After(us) <==> LastUpdate(us, a, b).Some?
    ensures LastUpdate(us, a, b).Some? ==>
              var u := LastUpdate(us, a, b).value;
              After(us)[Key(a, b)] == Rate(a, b, if u.from == a then u.rate else 1.0 / u.rate, u.fee)
  {
    if us != [] {
      assert us[|us| - 1] in us;
      QuoteIsLastUpdate(us[..|us| - 1], a, b);
      QuoteStep(After(us[..|us| - 1]), us[|us| - 1], a, b);
    }
  }

  /** out is what an exchange at this rate and fee pays and takes: together amount times rate, of which fee percent. */
  ghost predicate Exchanged(out: Result<(real, real), Error>, amount: real, rate: real, fee: real) {
    && out.Ok?
    && out.value.0 + out.value.1 == amount * rate
    && out.value.1 * 100.0 == amount * rate * fee
  }

  lemma ExchangeAtRate(rs: Rates, a: string, b: string, amount: real, rate: real, fee: real)
    requires Get(rs, a, b) == Ok(Rate(a, b, rate, fee))
    ensures Exchanged(Calculate(rs, a, b, amount), amount, rate, fee)
  {}

  /**
   What an exchange pays out and takes as its fee: at the rate and fee of the last update of
   the pair, or at one divided by that rate if the update was made from the other side.
   */
  lemma ExchangeIsLastUpdate(us: seq<Update>, a: string, b: string, amount: real)
    requires forall u :: u in us ==> Positive(u) && Proper(u)
    requires HyphenFree(a) && HyphenFree(b) && a != b
    ensures match LastUpdate(us, a, b)
            case None => Calculate(After(us), a, b, amount) == Err(InvalidPair)
            case Some(Update(from, _, rate, fee)) =>
              && rate > 0.0
              && Exchanged(Calculate(After(us), a, b, amount), amount, if from == a then rate else 1.0 / rate, fee)
  {
    QuoteIsLastUpdate(us, a, b);
    if LastUpdate(us, a, b).Some? {
      var u := LastUpdate(us, a, b).value;
      ExchangeAtRate(After(us), a, b, amount, if u.from == a then u.rate else 1.0 / u.rate, u.fee);
    }
  }

  /** BNB at 500 USD with a fee of one percent: two BNB pay 990 after a fee of 10, and 500 USD pay 0.99 after 0.01. */
  lemma BnbForUsd()
    ensures var rs := After([Update("BNB", "USD", 500.0, 1.0)]);
            && Calculate(rs, "BNB", "USD", 2.0) == Ok((990.0, 10.0))
            && Calculate(rs, "USD", "BNB", 500.0) == Ok((0.99, 0.01))
  {
    var us := [Update("BNB", "USD", 500.0, 1.0)];
    assert us[0] in us && LastUpdate(us, "BNB", "USD") == Some(us[0]) == LastUpdate(us, "USD", "BNB");
    assert "BNB"[0] != "USD"[0];
    ExchangeIsLastUpdate(us, "BNB", "USD", 2.0);
    ExchangeIsLastUpdate(us, "USD", "BNB", 500.0);
  }

  // ---------- paths ----------

  /** A walk over quoted pairs of hyphen-free symbols. */
  ghost predicate Path(rs: Rates, p: seq<string>) {
    && p != []
    && (forall i :: 0 <= i < |p| ==> HyphenFree(p[i]))
    && (forall i :: 0 <= i < |p| - 1 ==> p[i] != p[i + 1] && Key(p[i], p[i + 1]) in rs)
  }

  /** Converting an amount along a path. */
  function Convert(rs: Rates, p: seq<string>, amount: real): Result<real, Error>
    decreases |p|
  {
    if |p| <= 1 then Ok(amount)
    else
      match Calculate(rs, p[0], p[1], amount)
      case Err(e) => Err(e)
      case Ok(out) => Convert(rs, p[1..], out.0)
  }

  function Reversed(p: seq<string>): seq<string>
    decreases |p|
  {
    if p == [] then [] else Reversed(p[1..]) + [p[0]]
  }

  /** What one edge keeps of an amount: 1 - fee/100. */
  function Kept(rs: Rates, a: string, b: string): real
    requires Key(a, b) in rs
  {
    1.0 - rs[Key(a, b)].fee / 100.0
  }

  /** The product of (1 - fee/100) squared over the edges of a path. */
  ghost function KeptAlong(rs: Rates, p: seq<string>): real
    requires Path(rs, p)
    decreases |p|
  {
    if |p| == 1 then 1.0
    else
      assert Path(rs, p[1..]) by {
        forall i | 0 <= i < |p[1..]| - 1 ensures p[1..][i] != p[1..][i + 1] && Key(p[1..][i], p[1..][i + 1]) in rs {
          assert p[i + 1] != p[i + 2] && Key(p[i + 1], p[i + 1 + 1]) in rs;
        }
      }
      var k := Kept(rs, p[0], p[1]);
      Scaled(Scaled(k, k), KeptAlong(rs, p[1..]))
  }

  /** Converting along a path scales the amount, so it can be followed by another path. */
  lemma {:induction false} ConvertConcat(rs: Rates, p: seq<string>, q: seq<string>, amount: real)
    requires p != [] && q != [] && p[|p| - 1] == q[0]
    ensures Convert(rs, p + q[1..], amount)
            == if Convert(rs, p, amount).Ok? then Convert(rs, q, Convert(rs, p, amount).value)
               else Convert(rs, p, amount)
    decreases |p|
  {
    if |p| == 1 {
      assert p + q[1..] == q;
    } else {
      assert (p + q[1..])[1..] == p[1..] + q[1..];
      match Calculate(rs, p[0], p[1], amount)
      case Err(_) =>
      case Ok(out) => ConvertConcat(rs, p[1..], q, out.0);
    }
  }

  /** The factor of one conversion. */
  function Gain(rs: Rates, a: string, b: string): real
    requires Key(a, b) in rs
  {
    Scaled(rs[Key(a, b)].rate, Kept(rs, a, b))
  }

  lemma TakeFee(x: real, rate: real, part: real)
    ensures Scaled(x, rate) - Scaled(Scaled(x, rate), part) == Scaled(x, Scaled(rate, 1.0 - part))
  {}

  lemma EdgeScales(rs: Rates, a: string, b: string, amount: real)
    requires Key(a, b) in rs
    ensures Calculate(rs, a, b, amount).Ok?
    ensures Calculate(rs, a, b, amount).value.0 == Scaled(amount, Gain(rs, a, b))
  {
    TakeFee(amount, rs[Key(a, b)].rate, rs[Key(a, b)].fee / 100.0);
  }

  lemma ReversedShape(p: seq<string>)
    requires p != []
    ensures |Reversed(p)| == |p| && Reversed(p)[0] == p[|p| - 1] && Reversed(p)[|p| - 1] == p[0]
    decreases |p|
  {
    if |p| > 1 {
      ReversedShape(p[1..]);
    }
  }

  lemma PathTail(rs: Rates, p: seq<string>)
    requires Path(rs, p) && |p| > 1
    ensures Path(rs, p[1..])
  {
    forall i | 0 <= i < |p[1..]| - 1 ensures p[1..][i] != p[1..][i + 1] && Key(p[1..][i], p[1..][i + 1]) in rs {
      assert p[i + 1] != p[i + 1 + 1] && Key(p[i + 1], p[i + 1 + 1]) in rs;
    }
  }

  ghost predicate AllReciprocal(rs: Rates) {
    forall a, b :: HyphenFree(a) && HyphenFree(b) && a != b ==> Reciprocal(rs, a, b)
  }

  /** There along a path and back along its reverse, from any amount. */
  ghost function RoundTrip(rs: Rates, p: seq<string>, amount: real): Result<real, Error> {
    match Convert(rs, p, amount) case Err(e) => Err(e) case Ok(out) => Convert(rs, Reversed(p), out)
  }

  lemma ThereAndBack(x: real, r: real, s: real, k: real, f: real)
    requires r * s == 1.0
    ensures Scaled(Scaled(Scaled(x, Scaled(r, k)), f), Scaled(s, k)) == Scaled(x, Scaled(Scaled(k, k), f))
  {
    assert x * (r * k) * f * (s * k) == r * s * (x * (k * k * f));
  }

  /** One edge out, an inner round trip worth f, and the same edge back. */
  lemma EdgeRoundTrip(rs: Rates, a: string, b: string, x: real, f: real)
    requires Reciprocal(rs, a, b) && Key(a, b) in rs
    ensures Scaled(Scaled(Scaled(x, Gain(rs, a, b)), f), Gain(rs, b, a))
            == Scaled(x, Scaled(Scaled(Kept(rs, a, b), Kept(rs, a, b)), f))
  {
    ThereAndBack(x, rs[Key(a, b)].rate, rs[Key(b, a)].rate, Kept(rs, a, b), f);
  }

  lemma FirstEdge(rs: Rates, p: seq<string>)
    requires AllReciprocal(rs) && Path(rs, p) && |p| > 1
    ensures Key(p[0], p[1]) in rs && Key(p[1], p[0]) in rs && Reciprocal(rs, p[0], p[1])
    ensures Path(rs, p[1..])
    ensures KeptAlong(rs, p) == Scaled(Scaled(Kept(rs, p[0], p[1]), Kept(rs, p[0], p[1])), KeptAlong(rs, p[1..]))
  {
    PathTail(rs, p);
    assert p[0] != p[0 + 1] && Key(p[0], p[0 + 1]) in rs;
    assert Reciprocal(rs, p[0], p[1]);
  }

  lemma ConvertEdge(rs: Rates, a: string, b: string, amount: real)
    requires Key(a, b) in rs
    ensures Convert(rs, [a, b], amount) == Ok(Scaled(amount, Gain(rs, a, b)))
  {
    EdgeScales(rs, a, b, amount);
    assert [a, b][1..] == [b];
  }

  /** Unfolding a round trip at its outermost edge. */
  lemma RoundTripUnfold(rs: Rates, p: seq<string>, amount: real, y: real)
    requires |p| > 1 && Key(p[0], p[1]) in rs && Key(p[1], p[0]) in rs
    requires RoundTrip(rs, p[1..], Scaled(amount, Gain(rs, p[0], p[1]))) == Ok(y)
    ensures RoundTrip(rs, p, amount) == Ok(Scaled(y, Gain(rs, p[1], p[0])))
  {
    EdgeScales(rs, p[0], p[1], amount);
    var out := Convert(rs, p[1..], Scaled(amount, Gain(rs, p[0], p[1]))).value;
    ReversedShape(p[1..]);
    assert [p[1], p[0]][1..] == [p[0]];
    ConvertConcat(rs, Reversed(p[1..]), [p[1], p[0]], out);
    ConvertEdge(rs, p[1], p[0], y);
  }

  /** A round trip multiplies the amount by the product of (1 - fee/100) squared over the path's edges. */
  lemma {:induction false} RoundTripExact(rs: Rates, p: seq<string>, amount: real)
    requires AllReciprocal(rs) && Path(rs, p)
    ensures RoundTrip(rs, p, amount) == Ok(Scaled(amount, KeptAlong(rs, p)))
    decreases |p|
  {
    if |p| == 1 {
      assert Reversed(p) == p;
    } else {
      FirstEdge(rs, p);
      var x := Scaled(amount, Gain(rs, p[0], p[1]));
      RoundTripExact(rs, p[1..], x);
      RoundTripUnfold(rs, p, amount, Scaled(x, KeptAlong(rs, p[1..])));
      EdgeRoundTrip(rs, p[0], p[1], amount, KeptAlong(rs, p[1..]));
    }
  }

  lemma ProductNonNegative(x: real, y: real)
    requires 0.0 <= x && 0.0 <= y
    ensures 0.0 <= x * y
  {}

  lemma ShareOf(x: real, y: real)
    requires 0.0 <= x && 0.0 <= y <= 1.0
    ensures 0.0 <= Scaled(x, y) <= x
  {
    var rest := 1.0 - y;
    ProductNonNegative(x, y);
    ProductNonNegative(x, rest);
    assert x * rest == x - x * y;
  }

  lemma {:induction false} KeptAlongIsShare(rs: Rates, p: seq<string>)
    requires AllReciprocal(rs) && Path(rs, p)
    ensures 0.0 <= KeptAlong(rs, p) <= 1.0
    decreases |p|
  {
    if |p| > 1 {
      FirstEdge(rs, p);
      KeptAlongIsShare(rs, p[1..]);
      var k := Kept(rs, p[0], p[1]);
      ShareOf(k, k);
      ShareOf(Scaled(k, k), KeptAlong(rs, p[1..]));
    }
  }

  /** So after any such updates, no round trip along any path gains. */
  lemma RoundTripNeverGains(us: seq<Update>, p: seq<string>, amount: real)
    requires forall u :: u in us ==> Positive(u) && Proper(u)
    requires Path(After(us), p) && amount >= 0.0
    ensures RoundTrip(After(us), p, amount) == Ok(Scaled(amount, KeptAlong(After(us), p)))
    ensures 0.0 <= Scaled(amount, KeptAlong(After(us), p)) <= amount
  {
    var rs := After(us);
    forall a, b | HyphenFree(a) && HyphenFree(b) && a != b ensures Reciprocal(rs, a, b) {
      AlwaysReciprocal(us, a, b);
    }
    RoundTripExact(rs, p, amount);
    KeptAlongIsShare(rs, p);
    ShareOf(amount, KeptAlong(rs, p));
  }

  // ---------- any symbols at all ----------

  /** Setting from/to writes the key of a/b. */
  predicate Writes(from: string, to: string, a: string, b: string) {
    Key(a, b) == Key(from, to) || Key(a, b) == Key(to, from)
  }

  /** Both directions of a/b are written, under different keys, or neither is. */
  predicate Separable(from: string, to: string, a: string, b: string) {
    && (Writes(from, to, a, b) <==> Writes(from, to, b, a))
    && (Writes(from, to, a, b) ==> Key(a, b) != Key(b, a))
  }

  lemma SeparableKeeps(rs: Rates, u: Update, a: string, b: string)
    requires Reciprocal(rs, a, b) && Separable(u.from, u.to, a, b)
    requires u.rate > 0.0 && 0.0 <= u.fee <= 100.0
    ensures Reciprocal(Set(rs, u.from, u.to, u.rate, u.fee), a, b)
  {
    Inverse(u.rate);
  }

  /** Otherwise one of the rates 2 and 3 breaks the pair. */
  lemma InseparableBreaks(rs: Rates, from: string, to: string, a: string, b: string)
    requires Reciprocal(rs, a, b) && !Separable(from, to, a, b)
    ensures !Reciprocal(Set(rs, from, to, 2.0, 0.0), a, b) || !Reciprocal(Set(rs, from, to, 3.0, 0.0), a, b)
  {}

  /** Reciprocity of a pair survives every rate and fee set for from/to exactly when their keys are separable. */
  lemma KeepsReciprocityIff(rs: Rates, from: string, to: string, a: string, b: string)
    requires Reciprocal(rs, a, b)
    ensures (forall rate: real, fee: real | rate > 0.0 && 0.0 <= fee <= 100.0 ::
               Reciprocal(Set(rs, from, to, rate, fee), a, b))
            <==> Separable(from, to, a, b)
  {
    if Separable(from, to, a, b) {
      forall rate: real, fee: real | rate > 0.0 && 0.0 <= fee <= 100.0
        ensures Reciprocal(Set(rs, from, to, rate, fee), a, b)
      {
        SeparableKeeps(rs, Update(from, to, rate, fee), a, b);
      }
    } else {
      InseparableBreaks(rs, from, to, a, b);
    }
  }

  /** Positive updates of these pairs of symbols. */
  ghost predicate UpdatesOf(us: seq<Update>, pairs: set<(string, string)>) {
    forall u :: u in us ==> Positive(u) && (u.from, u.to) in pairs
  }

  lemma {:induction false} SeparableRunKeeps(us: seq<Update>, pairs: set<(string, string)>, a: string, b: string)
    requires UpdatesOf(us, pairs) && forall p :: p in pairs ==> Separable(p.0, p.1, a, b)
    ensures Reciprocal(After(us), a, b)
  {
    if us != [] {
      var u := us[|us| - 1];
      assert u in us && (u.from, u.to) in pairs;
      assert Separable((u.from, u.to).0, (u.from, u.to).1, a, b);
      SeparableRunKeeps(us[..|us| - 1], pairs, a, b);
      SeparableKeeps(After(us[..|us| - 1]), u, a, b);
    }
  }

  lemma OneUpdate(u: Update)
    requires Positive(u)
    ensures After([u]) == Set(map[], u.from, u.to, u.rate, u.fee)
  {
    assert [u][..0] == [];
  }

  /**
   For any set of symbol pairs: a/b is reciprocal after every sequence of positive updates of
   those pairs exactly when each of them is separable from it.
   */
  lemma AlwaysReciprocalIff(pairs: set<(string, string)>, a: string, b: string)
    ensures (forall us: seq<Update> | UpdatesOf(us, pairs) :: Reciprocal(After(us), a, b))
            <==> forall p :: p in pairs ==> Separable(p.0, p.1, a, b)
  {
    if forall p :: p in pairs ==> Separable(p.0, p.1, a, b) {
      forall us: seq<Update> | UpdatesOf(us, pairs) ensures Reciprocal(After(us), a, b) {
        SeparableRunKeeps(us, pairs, a, b);
      }
    } else {
      var p :| p in pairs && !Separable(p.0, p.1, a, b);
      var two, three := Update(p.0, p.1, 2.0, 0.0), Update(p.0, p.1, 3.0, 0.0);
      InseparableBreaks(map[], p.0, p.1, a, b);
      OneUpdate(two);
      OneUpdate(three);
      assert UpdatesOf([two], pairs) && UpdatesOf([three], pairs);
    }
  }

  /** Without the hyphen condition it fails: "A-B"/"C" and "A"/"B-C" share a key, and a round trip gains. */
  lemma HyphensBreakReciprocity()
    ensures var rs := Set(Set(map[], "A-B", "C", 2.0, 0.0), "A", "B-C", 3.0, 0.0);
            && Calculate(rs, "A-B", "C", 1.0) == Ok((3.0, 0.0))
            && Calculate(rs, "C", "A-B", 3.0) == Ok((1.5, 0.0))
  {
    var rs := Set(Set(map[], "A-B", "C", 2.0, 0.0), "A", "B-C", 3.0, 0.0);
    assert Key("A-B", "C") == "A-B-C" == Key("A", "B-C");
    assert Key("C", "A-B") == "C-A-B";
    assert Key("B-C", "A") == "B-C-A";
    assert rs["A-B-C"] == Rate("A", "B-C", 3.0, 0.0);
    assert rs["C-A-B"] == Rate("C", "A-B", 0.5, 0.0);
  }
}

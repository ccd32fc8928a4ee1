/**
 * Request parameters and the query-string encoder `buildQueryString`
 * (binanceUsClient.js:79-85), together with the reading of a query string back
 * into key/value pairs that shows the encoding loses nothing.
 */
module QueryString {
  import opened Wrappers
  import opened JsNumbers

  /** A parameter value as the tool layer passes it. */
  datatype Value = Undefined | Null | Str(s: string) | Num(n: int) | Bool(b: bool)

  /** A JavaScript object's entries, in `Object.entries` order. */
  type Params = seq<(string, Value)>

  /** The encoder keeps every value other than `undefined` and `null` (so `""`, `0` and `false` stay). */
  predicate Defined(v: Value) {
    !v.Undefined? && !v.Null?
  }

  predicate AllDefined(p: Params) {
    forall i :: 0 <= i < |p| ==> Defined(p[i].1)
  }

  /** `String(value)` for a defined value. */
  function Show(v: Value): string
    requires Defined(v)
  {
    match v
    case Str(s) => s
    case Num(n) => IntToString(n)
    case Bool(b) => if b then "true" else "false"
  }

  function Keys(p: Params): (ks: seq<string>)
    ensures |ks| == |p| && forall i :: 0 <= i < |p| ==> ks[i] == p[i].0
  {
    if p == [] then [] else [p[0].0] + Keys(p[1..])
  }

  /** `params[k]`: the value of key `k`, `None` when the object has no such key. */
  function Lookup(p: Params, k: string): Option<Value> {
    if p == [] then None else if p[0].0 == k then Some(p[0].1) else Lookup(p[1..], k)
  }

  predicate DistinctKeys(p: Params) {
    forall i, j :: 0 <= i < j < |p| ==> p[i].0 != p[j].0
  }

  // ---------------------------------------------------------------------------
  // The encoder
  // ---------------------------------------------------------------------------

  /** The `.filter` step: the entries whose value is defined, in their original order. */
  function Kept(p: Params): (r: Params)
    ensures AllDefined(r) && |r| <= |p|
    ensures forall e :: e in r <==> e in p && Defined(e.1)
  {
    if p == [] then []
    else (if Defined(p[0].1) then [p[0]] else []) + Kept(p[1..])
  }

  /** One `encodeURIComponent(key)=encodeURIComponent(String(value))` pair. */
  function EncodePair(k: string, v: Value, enc: string -> string): string
    requires Defined(v)
  {
    enc(k) + "=" + enc(Show(v))
  }

  /** The `.map` step. */
  function EncodePairs(p: Params, enc: string -> string): (r: seq<string>)
    requires AllDefined(p)
    ensures |r| == |p|
  {
    if p == [] then [] else [EncodePair(p[0].0, p[0].1, enc)] + EncodePairs(p[1..], enc)
  }

  /** The `.join("&")` step. */
  function Join(xs: seq<string>): string {
    if xs == [] then ""
    else if |xs| == 1 then xs[0]
    else xs[0] + "&" + Join(xs[1..])
  }

  /** `buildQueryString(params)` with `encodeURIComponent` given as `enc`. */
  function BuildQueryString(params: Params, enc: string -> string): string {
    Join(EncodePairs(Kept(params), enc))
  }

  // ---------------------------------------------------------------------------
  // Reading a query string back
  // ---------------------------------------------------------------------------

  /** Splits `s` at every `c`; there is always at least one part. */
  function SplitOn(s: string, c: char): (parts: seq<string>)
    ensures |parts| > 0
  {
    if s == [] then [[]]
    else if s[0] == c then [[]] + SplitOn(s[1..], c)
    else var rest := SplitOn(s[1..], c); [[s[0]] + rest[0]] + rest[1..]
  }

  /** Splits `key=value` at its first `=`; a part without `=` is a key with an empty value. */
  function SplitPair(t: string): (string, string) {
    if t == [] then ("", "")
    else if t[0] == '=' then ("", t[1..])
    else var (k, v) := SplitPair(t[1..]); ([t[0]] + k, v)
  }

  function SplitPairs(parts: seq<string>): (r: seq<(string, string)>)
    ensures |r| == |parts|
  {
    if parts == [] then [] else [SplitPair(parts[0])] + SplitPairs(parts[1..])
  }

  /** The raw `key=value` pairs of a query string; the empty string has none. */
  function RawPairs(s: string): seq<(string, string)> {
    if s == "" then [] else SplitPairs(SplitOn(s, '&'))
  }

  function DecodePairs(pairs: seq<(string, string)>, dec: string -> string): (r: seq<(string, string)>)
    ensures |r| == |pairs|
  {
    if pairs == [] then [] else [(dec(pairs[0].0), dec(pairs[0].1))] + DecodePairs(pairs[1..], dec)
  }

  /** A query string read back into decoded key/value pairs. */
  function ParseQuery(s: string, dec: string -> string): seq<(string, string)> {
    DecodePairs(RawPairs(s), dec)
  }

  /** The key/value pairs as strings, which is what a query string can carry. */
  function Rendered(p: Params): (r: seq<(string, string)>)
    requires AllDefined(p)
    ensures |r| == |p|
  {
    if p == [] then [] else [(p[0].0, Show(p[0].1))] + Rendered(p[1..])
  }

  /** `encodeURIComponent` escapes both separators, so no encoded text contains them. */
  ghost predicate EscapesSeparators(enc: string -> string) {
    forall s :: '&' !in enc(s) && '=' !in enc(s)
  }

  // ---------------------------------------------------------------------------
  // Properties of the encoder
  // ---------------------------------------------------------------------------

  /** Filtering distributes over concatenation: together with the one-entry case this fixes the order. */
  lemma {:induction false} KeptAppend(p: Params, q: Params)
    ensures Kept(p + q) == Kept(p) + Kept(q)
  {
    if p == [] {
      assert p + q == q;
    } else {
      assert (p + q)[0] == p[0] && (p + q)[1..] == p[1..] + q;
      KeptAppend(p[1..], q);
    }
  }

  /** A single entry survives filtering exactly when its value is defined. */
  lemma KeptSingle(k: string, v: Value)
    ensures Kept([(k, v)]) == if Defined(v) then [(k, v)] else []
  {
    assert [(k, v)][1..] == [];
  }

  lemma {:induction false} JoinOfNonEmpty(xs: seq<string>)
    requires forall i :: 0 <= i < |xs| ==> xs[i] != ""
    ensures Join(xs) == "" <==> xs == []
  {
  }

  lemma {:induction false} EncodePairsNonEmpty(p: Params, enc: string -> string)
    requires AllDefined(p)
    ensures forall i :: 0 <= i < |p| ==> EncodePairs(p, enc)[i] != ""
  {
    if p != [] {
      EncodePairsNonEmpty(p[1..], enc);
      forall i | 0 <= i < |p|
        ensures EncodePairs(p, enc)[i] != ""
      {
        if i > 0 {
          assert EncodePairs(p, enc)[i] == EncodePairs(p[1..], enc)[i - 1];
        }
      }
    }
  }

  /** The encoded string is empty exactly when no entry has a defined value. */
  lemma BuildQueryStringEmpty(params: Params, enc: string -> string)
    ensures BuildQueryString(params, enc) == "" <==>
      forall i :: 0 <= i < |params| ==> !Defined(params[i].1)
  {
    var kept := Kept(params);
    EncodePairsNonEmpty(kept, enc);
    JoinOfNonEmpty(EncodePairs(kept, enc));
    if kept != [] {
      assert kept[0] in params;
    } else {
      forall i | 0 <= i < |params|
        ensures !Defined(params[i].1)
      {
        assert params[i] in params;
      }
    }
  }

  lemma {:induction false} SplitOnFree(a: string, c: char)
    requires c !in a
    ensures SplitOn(a, c) == [a]
  {
    if a != [] {
      SplitOnFree(a[1..], c);
      assert [a[0]] + a[1..] == a;
    }
  }

  lemma {:induction false} SplitOnSeparated(a: string, c: char, b: string)
    requires c !in a
    ensures SplitOn(a + [c] + b, c) == [a] + SplitOn(b, c)
  {
    if a == [] {
      assert a + [c] + b == [c] + b;
      assert ([c] + b)[1..] == b;
    } else {
      var s := a + [c] + b;
      assert s[1..] == a[1..] + [c] + b;
      SplitOnSeparated(a[1..], c, b);
      assert [a[0]] + a[1..] == a;
    }
  }

  /** Splitting at `&` undoes the join when no part contains `&`. */
  lemma {:induction false} SplitJoin(xs: seq<string>)
    requires xs != []
    requires forall i :: 0 <= i < |xs| ==> '&' !in xs[i]
    ensures SplitOn(Join(xs), '&') == xs
  {
    if |xs| == 1 {
      SplitOnFree(xs[0], '&');
    } else {
      SplitOnSeparated(xs[0], '&', Join(xs[1..]));
      assert xs[0] + "&" + Join(xs[1..]) == xs[0] + ['&'] + Join(xs[1..]);
      SplitJoin(xs[1..]);
    }
  }

  lemma {:induction false} SplitPairAt(a: string, b: string)
    requires '=' !in a
    ensures SplitPair(a + "=" + b) == (a, b)
  {
    if a == [] {
      assert a + "=" + b == ['='] + b;
      assert (['='] + b)[1..] == b;
    } else {
      assert (a + "=" + b)[1..] == a[1..] + "=" + b;
      SplitPairAt(a[1..], b);
      assert [a[0]] + a[1..] == a;
    }
  }

  lemma {:induction false} EncodedPartsFree(p: Params, enc: string -> string)
    requires AllDefined(p) && EscapesSeparators(enc)
    ensures forall i :: 0 <= i < |p| ==> '&' !in EncodePairs(p, enc)[i]
  {
    if p != [] {
      EncodedPartsFree(p[1..], enc);
      forall i | 0 <= i < |p|
        ensures '&' !in EncodePairs(p, enc)[i]
      {
        if i == 0 {
          var k, v := enc(p[0].0), enc(Show(p[0].1));
          assert EncodePairs(p, enc)[0] == k + "=" + v;
          assert '&' !in k && '&' !in v;
        } else {
          assert EncodePairs(p, enc)[i] == EncodePairs(p[1..], enc)[i - 1];
        }
      }
    }
  }

  lemma {:induction false} PairsRoundTrip(p: Params, enc: string -> string, dec: string -> string)
    requires AllDefined(p) && EscapesSeparators(enc)
    requires forall s :: dec(enc(s)) == s
    ensures DecodePairs(SplitPairs(EncodePairs(p, enc)), dec) == Rendered(p)
  {
    if p != [] {
      var parts := EncodePairs(p, enc);
      assert parts[1..] == EncodePairs(p[1..], enc);
      assert '=' !in enc(p[0].0);
      SplitPairAt(enc(p[0].0), enc(Show(p[0].1)));
      var pairs := SplitPairs(parts);
      assert pairs[1..] == SplitPairs(parts[1..]);
      PairsRoundTrip(p[1..], enc, dec);
    }
  }

  /**
   * Round trip: reading the encoded string back (split at `&`, then at the first
   * `=`, then decode) gives exactly the kept entries, in order, with their values
   * as `String(value)`.
   */
  lemma ParseBuildQueryString(params: Params, enc: string -> string, dec: string -> string)
    requires EscapesSeparators(enc)
    requires forall s :: dec(enc(s)) == s
    ensures ParseQuery(BuildQueryString(params, enc), dec) == Rendered(Kept(params))
  {
    var kept := Kept(params);
    var parts := EncodePairs(kept, enc);
    EncodePairsNonEmpty(kept, enc);
    JoinOfNonEmpty(parts);
    if parts != [] {
      EncodedPartsFree(kept, enc);
      SplitJoin(parts);
    }
    PairsRoundTrip(kept, enc, dec);
  }

  /** Appending one more part to a non-empty join adds it after a `&`. */
  lemma {:induction false} JoinSnoc(xs: seq<string>, t: string)
    requires xs != []
    ensures Join(xs + [t]) == Join(xs) + "&" + t
  {
    if |xs| == 1 {
      assert (xs + [t])[1..] == [t];
    } else {
      assert (xs + [t])[1..] == xs[1..] + [t];
      JoinSnoc(xs[1..], t);
    }
  }

  lemma {:induction false} SplitPairsAppend(parts: seq<string>, t: string)
    ensures SplitPairs(parts + [t]) == SplitPairs(parts) + [SplitPair(t)]
  {
    if parts == [] {
      assert parts + [t] == [t];
      assert [t][1..] == [];
    } else {
      assert (parts + [t])[1..] == parts[1..] + [t];
      SplitPairsAppend(parts[1..], t);
    }
  }

  /** Reading back a join with one more `&`-free part adds that part's pair at the end. */
  lemma RawPairsSnoc(parts: seq<string>, t: string)
    requires parts != [] && '&' !in t
    requires forall i :: 0 <= i < |parts| ==> parts[i] != "" && '&' !in parts[i]
    ensures RawPairs(Join(parts) + "&" + t) == RawPairs(Join(parts)) + [SplitPair(t)]
  {
    JoinOfNonEmpty(parts);
    JoinSnoc(parts, t);
    SplitJoin(parts + [t]);
    SplitJoin(parts);
    SplitPairsAppend(parts, t);
  }

  /** The encoded query of parameters with a defined entry is not empty, and is a join of `&`-free parts. */
  lemma EncodedQueryParts(params: Params, enc: string -> string, k: string, v: Value)
    requires EscapesSeparators(enc) && (k, v) in params && Defined(v)
    ensures var parts := EncodePairs(Kept(params), enc);
      parts != [] && BuildQueryString(params, enc) == Join(parts) &&
      forall i :: 0 <= i < |parts| ==> parts[i] != "" && '&' !in parts[i]
  {
    var kept := Kept(params);
    assert (k, v) in kept;
    EncodePairsNonEmpty(kept, enc);
    EncodedPartsFree(kept, enc);
  }

  /** A key that is found is one of the entries. */
  lemma {:induction false} LookupIn(p: Params, k: string, v: Value)
    requires Lookup(p, k) == Some(v)
    ensures (k, v) in p
  {
    if p[0].0 != k {
      LookupIn(p[1..], k, v);
    }
  }

  /** Every kept entry appears, with its `String(value)`, among the rendered pairs. */
  lemma {:induction false} RenderedHas(p: Params, k: string, v: Value)
    requires AllDefined(p) && (k, v) in p
    ensures Defined(v) && (k, Show(v)) in Rendered(p)
  {
    if p[0] != (k, v) {
      RenderedHas(p[1..], k, v);
    }
  }

  // ---------------------------------------------------------------------------
  // Object spread: `{ ...params, key: value }`
  // ---------------------------------------------------------------------------

  /** Every entry with key `k` gets value `v`; positions are unchanged. */
  function Replace(p: Params, k: string, v: Value): (r: Params)
    ensures Keys(r) == Keys(p)
    ensures Lookup(r, k) == if k in Keys(p) then Some(v) else None
    ensures forall k' :: k' != k ==> Lookup(r, k') == Lookup(p, k')
  {
    if p == [] then []
    else [if p[0].0 == k then (k, v) else p[0]] + Replace(p[1..], k, v)
  }

  /**
   * `{ ...p, [k]: v }`: an existing key keeps its position and takes the new
   * value; a new key is added at the end.
   */
  function SetParam(p: Params, k: string, v: Value): Params {
    if k in Keys(p) then Replace(p, k, v) else p + [(k, v)]
  }

  lemma {:induction false} LookupAppend(p: Params, k: string, k': string, v: Value)
    requires k !in Keys(p)
    ensures Lookup(p + [(k, v)], k') == if k' == k then Some(v) else Lookup(p, k')
  {
    if p != [] {
      assert (p + [(k, v)])[1..] == p[1..] + [(k, v)];
      assert Keys(p) == [p[0].0] + Keys(p[1..]);
      LookupAppend(p[1..], k, k', v);
    } else {
      assert [(k, v)][1..] == [];
    }
  }

  /** After the spread, `k` has value `v` and every other key keeps its value. */
  lemma SetParamLookup(p: Params, k: string, v: Value, k': string)
    ensures Lookup(SetParam(p, k, v), k') == if k' == k then Some(v) else Lookup(p, k')
  {
    if k !in Keys(p) {
      LookupAppend(p, k, k', v);
    }
  }

  /** The spread keeps the key order and adds a new key last. */
  lemma SetParamKeys(p: Params, k: string, v: Value)
    ensures Keys(SetParam(p, k, v)) == if k in Keys(p) then Keys(p) else Keys(p) + [k]
    ensures DistinctKeys(p) ==> DistinctKeys(SetParam(p, k, v))
  {
    var r := SetParam(p, k, v);
    if k !in Keys(p) {
      assert Keys(r) == Keys(p) + [k];
    }
    if DistinctKeys(p) {
      forall i, j | 0 <= i < j < |r|
        ensures r[i].0 != r[j].0
      {
        assert Keys(r)[i] == r[i].0 && Keys(r)[j] == r[j].0;
        if k in Keys(p) {
          assert Keys(p)[i] == p[i].0 && Keys(p)[j] == p[j].0;
        } else if j < |p| {
          assert Keys(p)[i] == p[i].0 && Keys(p)[j] == p[j].0;
        } else {
          assert Keys(p)[i] == p[i].0;
        }
      }
    }
  }
}

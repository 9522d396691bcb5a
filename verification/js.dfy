/** JavaScript values and the handful of built-in operations the routes rely on:
    truthiness, `String(v)`, `Number(s)`, `trim`, `toLowerCase`, `includes`,
    `split` and `join`, and objects as insertion-ordered property lists. */
module Js {

  /** A JavaScript value as it reaches a route from `request.json()`, from an
      environment variable or from an external API response. Numbers are
      modelled as integers; `Obj` lists its properties in enumeration order. */
  datatype Value =
    | Undefined
    | Null
    | Bool(b: bool)
    | Num(n: int)
    | Str(s: string)
    | Arr(items: seq<Value>)
    | Obj(fields: Record)

  /** An object's own properties, in the order `Object.entries` yields them. */
  type Record = seq<(string, Value)>

  datatype Option<+T> = None | Some(value: T)

  /** The outcome of code that may throw: a value, or the thrown error's message. */
  datatype Try<+T> = Ok(value: T) | Throw(message: string)

  /** The process environment: a variable is either set to a string or unset. */
  type Env = map<string, string>

  /** `process.env[name]` */
  function EnvValue(env: Env, name: string): (v: Value)
    ensures name in env ==> v == Str(env[name])
    ensures name !in env ==> v == Undefined
  {
    if name in env then Str(env[name]) else Undefined
  }

  /** JavaScript truthiness: `undefined`, `null`, `false`, `0` and `''` are falsy. */
  predicate Truthy(v: Value) {
    match v
    case Undefined => false
    case Null => false
    case Bool(b) => b
    case Num(n) => n != 0
    case Str(s) => s != ""
    case Arr(_) => true
    case Obj(_) => true
  }

  predicate Nullish(v: Value) {
    v.Undefined? || v.Null?
  }

  /** `a === b` for the values the routes compare (no NaN, no object identity). */
  predicate StrictEq(a: Value, b: Value) {
    match (a, b)
    case (Arr(_), _) => false
    case (Obj(_), _) => false
    case _ => a == b
  }

  /** JavaScript `v || d`. */
  function Or(v: Value, d: Value): (r: Value)
    ensures Truthy(v) ==> r == v
    ensures !Truthy(v) ==> r == d
  {
    if Truthy(v) then v else d
  }

  /** `error.message || fallback`: the message of a caught error, or the
      fallback when the message is empty. */
  function OrDefault(message: string, fallback: string): (r: string)
    ensures message != "" ==> r == message
    ensures message == "" ==> r == fallback
  {
    if message == "" then fallback else message
  }

  // ---------------------------------------------------------------------------
  // Numbers and their decimal form

  predicate IsDigit(c: char) {
    '0' <= c <= '9'
  }

  predicate AllDigits(s: string) {
    forall i :: 0 <= i < |s| ==> IsDigit(s[i])
  }

  function DigitChar(d: int): (c: char)
    requires 0 <= d < 10
    ensures IsDigit(c)
  {
    "0123456789"[d]
  }

  function DigitValue(c: char): (d: int)
    requires IsDigit(c)
    ensures 0 <= d < 10
    ensures DigitChar(d) == c
  {
    c as int - '0' as int
  }

  /** The decimal digits of a natural number, most significant first. */
  function NatDecimal(n: nat): (r: string)
    ensures |r| > 0
    ensures AllDigits(r)
    decreases n
  {
    if n < 10 then [DigitChar(n)] else NatDecimal(n / 10) + [DigitChar(n % 10)]
  }

  /** `String(n)` for an integer `n`. */
  function Decimal(n: int): (r: string)
    ensures |r| > 0
  {
    if n < 0 then "-" + NatDecimal(-n) else NatDecimal(n)
  }

  /** The value of a string of decimal digits. */
  function DigitsValue(s: string): (n: nat)
    requires AllDigits(s)
    decreases |s|
  {
    if |s| == 0 then 0 else 10 * DigitsValue(s[..|s| - 1]) + DigitValue(s[|s| - 1])
  }

  /** `Number(s)` for a string, restricted to optionally signed decimal
      integers; `None` stands for `NaN`. Surrounding white space is ignored and
      the empty string is 0. */
  function ToNumber(s: string): (r: Option<int>)
    ensures Trim(s) == "" ==> r == Some(0)
  {
    ReadInteger(Trim(s))
  }

  /** The number trimmed text reads as: the empty text is 0, a sign may lead
      a nonempty run of digits, anything else is `NaN`. */
  function ReadInteger(t: string): (r: Option<int>)
    ensures t == "" ==> r == Some(0)
    ensures t != [] && AllDigits(t) ==> r == Some(DigitsValue(t))
  {
    if t == "" then Some(0)
    else if t[0] == '-' || t[0] == '+' then
      if |t| > 1 && AllDigits(t[1..]) then
        var m: int := DigitsValue(t[1..]);
        Some(if t[0] == '-' then -m else m)
      else None
    else if AllDigits(t) then Some(DigitsValue(t))
    else None
  }

  lemma {:induction false} DigitsValueOfDecimal(n: nat)
    ensures DigitsValue(NatDecimal(n)) == n
    decreases n
  {
    if n >= 10 {
      var a := NatDecimal(n / 10);
      var s := a + [DigitChar(n % 10)];
      assert s[..|s| - 1] == a;
      DigitsValueOfDecimal(n / 10);
    }
  }

  /** Ten to the power `k`. */
  function Pow10(k: nat): nat {
    if k == 0 then 1 else 10 * Pow10(k - 1)
  }

  /** A number with `k` digits is written with `k` characters. */
  lemma {:induction false} NatDecimalLength(n: nat, k: nat)
    requires k >= 1 && n < Pow10(k) && (k == 1 || Pow10(k - 1) <= n)
    ensures |NatDecimal(n)| == k
    decreases k
  {
    if k > 1 {
      assert n >= 10 by {
        assert Pow10(k - 1) >= 10 by { PowerAtLeast(k - 1); }
      }
      NatDecimalLength(n / 10, k - 1);
    }
  }

  lemma {:induction false} PowerAtLeast(k: nat)
    requires k >= 1
    ensures Pow10(k) >= 10
    decreases k
  {
    if k > 1 {
      PowerAtLeast(k - 1);
    }
  }

  /** A digit is not white space. */
  lemma DigitNotSpace(c: char)
    requires IsDigit(c)
    ensures !IsSpace(c)
  {
  }

  /** A nonempty run of digits reads as its value. */
  lemma NumberOfDigits(t: string)
    requires t != [] && AllDigits(t)
    ensures ToNumber(t) == Some(DigitsValue(t))
  {
    DigitNotSpace(t[0]);
    DigitNotSpace(t[|t| - 1]);
    TrimUnspaced(t);
  }

  /** A minus sign before a nonempty run of digits negates its value. */
  lemma ReadNegated(t: string)
    requires t != [] && AllDigits(t)
    ensures ReadInteger("-" + t) == Some(-(DigitsValue(t) as int))
  {
    assert ("-" + t)[1..] == t;
  }

  /** A minus sign followed by a nonempty run of digits reads as the
      negated value. */
  lemma NumberOfNegated(t: string)
    requires t != [] && AllDigits(t)
    ensures ToNumber("-" + t) == Some(-(DigitsValue(t) as int))
  {
    var d := "-" + t;
    assert d[|d| - 1] == t[|t| - 1];
    DigitNotSpace(t[|t| - 1]);
    TrimUnspaced(d);
    ReadNegated(t);
  }

  /** `Number(String(n)) === n`: the decimal form of an integer reads back as
      that integer. */
  lemma NumberOfDecimal(n: int)
    ensures ToNumber(Decimal(n)) == Some(n)
  {
    var m: nat := if n < 0 then -n else n;
    var t := NatDecimal(m);
    DigitsValueOfDecimal(m);
    if n < 0 {
      NumberOfNegated(t);
      assert Decimal(n) == "-" + t;
    } else {
      NumberOfDigits(t);
      assert Decimal(n) == t;
    }
  }

  // ---------------------------------------------------------------------------
  // String()

  /** `String(v)`: the string a value converts to. */
  function ToStr(v: Value): (r: string)
    ensures v.Str? ==> r == v.s
    ensures v.Num? ==> ToNumber(r) == Some(v.n)
    decreases v
  {
    match v
    case Undefined => "undefined"
    case Null => "null"
    case Bool(b) => if b then "true" else "false"
    case Num(n) => NumberOfDecimal(n); Decimal(n)
    case Str(s) => s
    case Arr(items) =>
      Join(seq(|items|, i requires 0 <= i < |items| => if Nullish(items[i]) then "" else ToStr(items[i])), ",")
    case Obj(_) => "[object Object]"
  }

  // ---------------------------------------------------------------------------
  // trim, toLowerCase, includes

  /** The code points `String.prototype.trim` removes: white space and line
      terminators. */
  const SpaceCodes: set<int> := {0x09, 0x0A, 0x0B, 0x0C, 0x0D, 0x20, 0xA0, 0x1680,
    0x2000, 0x2001, 0x2002, 0x2003, 0x2004, 0x2005, 0x2006, 0x2007, 0x2008, 0x2009, 0x200A,
    0x2028, 0x2029, 0x202F, 0x205F, 0x3000, 0xFEFF}

  predicate IsSpace(c: char) {
    c as int in SpaceCodes
  }

  function TrimStart(s: string): (r: string)
    ensures |r| <= |s| && r == s[|s| - |r|..]
    ensures r == [] || !IsSpace(r[0])
    ensures forall i :: 0 <= i < |s| - |r| ==> IsSpace(s[i])
    decreases |s|
  {
    if |s| > 0 && IsSpace(s[0]) then TrimStart(s[1..]) else s
  }

  function TrimEnd(s: string): (r: string)
    ensures |r| <= |s| && r == s[..|r|]
    ensures r == [] || !IsSpace(r[|r| - 1])
    ensures forall i :: |r| <= i < |s| ==> IsSpace(s[i])
    decreases |s|
  {
    if |s| > 0 && IsSpace(s[|s| - 1]) then TrimEnd(s[..|s| - 1]) else s
  }

  /** `s.trim()`: `s` without its leading and trailing white space. */
  function Trim(s: string): (r: string)
    ensures r == [] || (!IsSpace(r[0]) && !IsSpace(r[|r| - 1]))
  {
    TrimEnd(TrimStart(s))
  }

  /** The trim of `s` is a slice of it, and all that is cut away is white space. */
  lemma {:induction false} TrimIsSlice(s: string) returns (i: nat)
    ensures TrimSlice(s, Trim(s), i)
  {
    i := |s| - |TrimStart(s)|;
    StartEndSlice(s);
  }

  /** Trimming the end after the start leaves a trim slice. */
  lemma StartEndSlice(s: string)
    ensures TrimSlice(s, TrimEnd(TrimStart(s)), |s| - |TrimStart(s)|)
  {
    var a := TrimStart(s);
    TrimStartSlice(s);
    TrimEndSlice(a);
    InnerSlice(s, a, TrimEnd(a), |s| - |a|);
  }

  /** `TrimStart` cuts a prefix of white space. */
  lemma {:induction false} TrimStartSlice(s: string)
    ensures TrimStart(s) == s[|s| - |TrimStart(s)|..]
    ensures forall k :: 0 <= k < |s| - |TrimStart(s)| ==> IsSpace(s[k])
  {
  }

  /** `TrimEnd` cuts a suffix of white space. */
  lemma {:induction false} TrimEndSlice(s: string)
    ensures TrimEnd(s) == s[..|TrimEnd(s)|]
    ensures forall k :: |TrimEnd(s)| <= k < |s| ==> IsSpace(s[k])
  {
  }

  /** A prefix `r` of the suffix `a` of `s` that starts at `i`, with white
      space around both cuts, is a trim slice of `s`. */
  lemma InnerSlice(s: string, a: string, r: string, i: nat)
    requires i <= |s| && a == s[i..] && |r| <= |a| && r == a[..|r|]
    requires forall k :: 0 <= k < i ==> IsSpace(s[k])
    requires forall k :: |r| <= k < |a| ==> IsSpace(a[k])
    ensures TrimSlice(s, r, i)
  {
    assert r == s[i..i + |r|];
    forall k | i + |r| <= k < |s|
      ensures IsSpace(s[k])
    {
      assert s[k] == a[k - i];
    }
  }

  /** `r` is the slice of `s` starting at `i`, and everything of `s` outside
      it is white space. */
  predicate TrimSlice(s: string, r: string, i: int) {
    && 0 <= i <= |s| - |r|
    && r == s[i..i + |r|]
    && (forall k :: 0 <= k < i ==> IsSpace(s[k]))
    && (forall k :: i + |r| <= k < |s| ==> IsSpace(s[k]))
  }

  /** A string that neither starts nor ends with white space is its own trim. */
  lemma TrimUnspaced(s: string)
    requires s == [] || (!IsSpace(s[0]) && !IsSpace(s[|s| - 1]))
    ensures Trim(s) == s
  {
  }

  lemma TrimIdempotent(s: string)
    ensures Trim(Trim(s)) == Trim(s)
  {
    TrimUnspaced(Trim(s));
  }

  /** The trim is the only slice with white space around it and none at
      its own two ends. */
  lemma TrimUnique(s: string, r: string, i: nat)
    requires TrimSlice(s, r, i)
    requires r == [] || (!IsSpace(r[0]) && !IsSpace(r[|r| - 1]))
    ensures r == Trim(s)
  {
    var t := Trim(s);
    var j := TrimIsSlice(s);
    if r == [] {
      assert forall k :: 0 <= k < |s| ==> IsSpace(s[k]);
      assert forall c :: c in t ==> IsSpace(c);
    } else {
      assert !IsSpace(s[i]) && !IsSpace(s[i + |r| - 1]);
      assert t != [] by {
        assert s[i] in s;
      }
      assert !IsSpace(s[j]) && !IsSpace(s[j + |t| - 1]);
      assert i == j;
      assert |r| == |t|;
    }
  }

  /** Trimming the start first does not change the trim. */
  lemma TrimOfTrimStart(s: string)
    ensures Trim(TrimStart(s)) == Trim(s)
  {
    var a := TrimStart(s);
    assert TrimStart(a) == a;
  }

  /** Trimming the end first does not change the trim. */
  lemma TrimOfTrimEnd(s: string)
    ensures Trim(TrimEnd(s)) == Trim(s)
  {
    var e := TrimEnd(s);
    var t := Trim(e);
    var j := TrimIsSlice(e);
    TrimEndSlice(s);
    PrefixSlice(s, e, t, j);
    TrimUnique(s, t, j);
  }

  /** A trim slice of a prefix that only white space follows is a trim
      slice of the whole. */
  lemma PrefixSlice(s: string, e: string, t: string, j: nat)
    requires |e| <= |s| && e == s[..|e|]
    requires forall k :: |e| <= k < |s| ==> IsSpace(s[k])
    requires TrimSlice(e, t, j)
    ensures TrimSlice(s, t, j)
  {
    assert t == s[j..j + |t|] by {
      assert e[j..j + |t|] == s[j..j + |t|];
    }
    forall k | 0 <= k < |s| && (k < j || j + |t| <= k)
      ensures IsSpace(s[k])
    {
      if k < |e| { assert s[k] == e[k]; }
    }
  }

  /** Trimming around a non-space character trims the start of what comes
      before it and the end of what comes after it. */
  lemma TrimAround(a: string, c: char, b: string)
    requires !IsSpace(c)
    ensures Trim(a + [c] + b) == TrimStart(a) + [c] + TrimEnd(b)
  {
    var head := TrimStart(a);
    TrimStartAround(a, c, b);
    assert (head + [c])[|head + [c]| - 1] == c;
    TrimEndConcat(head + [c], b);
  }

  /** `TrimStart` stops at a non-space character. */
  lemma TrimStartAround(a: string, c: char, b: string)
    requires !IsSpace(c)
    ensures TrimStart(a + [c] + b) == TrimStart(a) + [c] + b
  {
    assert ([c] + b)[0] == c;
    TrimStartConcat(a, [c] + b);
    Regroup(a, [c], b);
    Regroup(TrimStart(a), [c], b);
  }

  /** Concatenation regrouped. */
  lemma Regroup(a: string, b: string, c: string)
    ensures a + b + c == a + (b + c)
  {
  }

  /** White space before a non-space character is all `TrimStart` removes. */
  lemma {:induction false} TrimStartConcat(a: string, t: string)
    requires t != [] && !IsSpace(t[0])
    ensures TrimStart(a + t) == TrimStart(a) + t
    decreases |a|
  {
    if a == [] {
      assert a + t == t;
    } else if IsSpace(a[0]) {
      assert (a + t)[1..] == a[1..] + t;
      TrimStartConcat(a[1..], t);
    } else {
      assert (a + t)[0] == a[0];
    }
  }

  /** White space after a non-space character is all `TrimEnd` removes. */
  lemma {:induction false} TrimEndConcat(t: string, b: string)
    requires t != [] && !IsSpace(t[|t| - 1])
    ensures TrimEnd(t + b) == t + TrimEnd(b)
    decreases |b|
  {
    var s := t + b;
    if b == [] {
      assert s == t;
    } else if IsSpace(b[|b| - 1]) {
      assert s[..|s| - 1] == t + b[..|b| - 1];
      TrimEndConcat(t, b[..|b| - 1]);
    } else {
      assert s[|s| - 1] == b[|b| - 1];
      assert s == t + b;
    }
  }

  /** `toLowerCase` on one character; only ASCII letters are modelled. */
  function LowerChar(c: char): (d: char)
    ensures 'A' <= c <= 'Z' ==> 'a' <= d <= 'z' && d as int == c as int + 32
    ensures !('A' <= c <= 'Z') ==> d == c
  {
    if 'A' <= c <= 'Z' then (c as int + 32) as char else c
  }

  /** `s.toLowerCase()` */
  function Lower(s: string): (r: string)
    ensures |r| == |s|
    ensures forall i :: 0 <= i < |s| ==> r[i] == LowerChar(s[i])
  {
    seq(|s|, i requires 0 <= i < |s| => LowerChar(s[i]))
  }

  lemma LowerIdempotent(s: string)
    ensures Lower(Lower(s)) == Lower(s)
  {
  }

  /** `s.includes(t)` */
  predicate Contains(s: string, t: string)
    decreases |s|
  {
    t <= s || (|s| > 0 && Contains(s[1..], t))
  }

  /** `t` occurs in `s` starting at position `i`. */
  predicate OccursAt(s: string, t: string, i: int) {
    0 <= i <= |s| - |t| && s[i..i + |t|] == t
  }

  /** `Contains` holds exactly when `t` occurs at some position of `s`. */
  lemma {:induction false} ContainsIff(s: string, t: string)
    ensures Contains(s, t) <==> exists i :: OccursAt(s, t, i)
    decreases |s|
  {
    if t <= s {
      assert OccursAt(s, t, 0);
    } else if |s| > 0 {
      ContainsIff(s[1..], t);
      if Contains(s[1..], t) {
        var i :| OccursAt(s[1..], t, i);
        assert s[i + 1..i + 1 + |t|] == s[1..][i..i + |t|];
        assert OccursAt(s, t, i + 1);
      }
      if i :| OccursAt(s, t, i) {
        assert i != 0;
        assert s[1..][i - 1..i - 1 + |t|] == s[i..i + |t|];
        assert OccursAt(s[1..], t, i - 1);
      }
    } else {
      assert forall i :: OccursAt(s, t, i) ==> t <= s;
    }
  }

  // ---------------------------------------------------------------------------
  // split and join

  /** `parts.join(sep)` */
  function Join(parts: seq<string>, sep: string): string
    decreases |parts|
  {
    if |parts| == 0 then ""
    else if |parts| == 1 then parts[0]
    else parts[0] + sep + Join(parts[1..], sep)
  }

  /** The position of the first `c` in `s`. */
  function IndexOf(s: string, c: char): (k: nat)
    requires c in s
    ensures k < |s| && s[k] == c && c !in s[..k]
  {
    if s[0] == c then 0 else 1 + IndexOf(s[1..], c)
  }

  /** `s.split(c)` for a one-character separator. */
  function Split(s: string, c: char): (parts: seq<string>)
    ensures |parts| > 0
    ensures forall i :: 0 <= i < |parts| ==> c !in parts[i]
    ensures c !in s ==> parts == [s]
    ensures c in s ==> |parts| >= 2 && parts[0] == s[..IndexOf(s, c)]
    decreases |s|
  {
    if c !in s then [s]
    else
      var k := IndexOf(s, c);
      [s[..k]] + Split(s[k + 1..], c)
  }

  /** Joining the pieces of a split with the separator gives back the string. */
  lemma {:induction false} JoinSplit(s: string, c: char)
    ensures Join(Split(s, c), [c]) == s
    decreases |s|
  {
    if c in s {
      var k := IndexOf(s, c);
      JoinSplit(s[k + 1..], c);
      assert Split(s, c)[1..] == Split(s[k + 1..], c);
      assert s == s[..k] + [c] + s[k + 1..];
    }
  }

  /** Text found in the middle part is found in the whole. */
  lemma ContainsWithin(a: string, m: string, b: string, t: string)
    requires Contains(m, t)
    ensures Contains(a + m + b, t)
  {
    ContainsIff(m, t);
    var k :| OccursAt(m, t, k);
    var s := a + m + b;
    assert s[|a| + k..|a| + k + |t|] == m[k..k + |t|];
    assert OccursAt(s, t, |a| + k);
    ContainsIff(s, t);
  }

  /** Every part can be found in the joined string. */
  lemma {:induction false} JoinContainsParts(parts: seq<string>, sep: string, i: nat)
    requires i < |parts|
    ensures Contains(Join(parts, sep), parts[i])
    decreases |parts|
  {
    var j := Join(parts, sep);
    if |parts| == 1 {
      assert OccursAt(j, parts[i], 0);
    } else if i == 0 {
      assert j[..|parts[0]|] == parts[0];
      assert OccursAt(j, parts[i], 0);
    } else {
      JoinContainsParts(parts[1..], sep, i - 1);
      var rest := Join(parts[1..], sep);
      ContainsIff(rest, parts[i]);
      var k :| OccursAt(rest, parts[i], k);
      var off := |parts[0] + sep|;
      assert j == parts[0] + sep + rest;
      assert j[off + k..off + k + |parts[i]|] == rest[k..k + |parts[i]|];
      assert OccursAt(j, parts[i], off + k);
    }
    ContainsIff(j, parts[i]);
  }

  // ---------------------------------------------------------------------------
  // Objects as property lists

  function Keys(r: Record): (ks: seq<string>)
    ensures |ks| == |r|
    ensures forall i :: 0 <= i < |r| ==> ks[i] == r[i].0
    decreases |r|
  {
    if |r| == 0 then [] else [r[0].0] + Keys(r[1..])
  }

  predicate HasKey(r: Record, k: string) {
    k in Keys(r)
  }

  /** No property name occurs twice. */
  predicate UniqueKeys(r: Record) {
    forall i, j :: 0 <= i < j < |r| ==> r[i].0 != r[j].0
  }

  /** The position of the first property named `k`. */
  function IndexOfKey(r: Record, k: string): (i: nat)
    requires HasKey(r, k)
    ensures i < |r| && r[i].0 == k
    ensures forall j :: 0 <= j < i ==> r[j].0 != k
    decreases |r|
  {
    if r[0].0 == k then 0 else 1 + IndexOfKey(r[1..], k)
  }

  /** `obj[k]`: the value of property `k`, `undefined` when there is none. */
  function Get(r: Record, k: string): (v: Value)
    ensures !HasKey(r, k) ==> v == Undefined
    ensures HasKey(r, k) ==> v == r[IndexOfKey(r, k)].1
    decreases |r|
  {
    if |r| == 0 then Undefined
    else if r[0].0 == k then r[0].1
    else Get(r[1..], k)
  }

  /** A position holding `k` with no `k` before it is where `k` is found. */
  lemma FirstIndex(r: Record, k: string, i: nat)
    requires i < |r| && r[i].0 == k && forall j :: 0 <= j < i ==> r[j].0 != k
    ensures HasKey(r, k) && IndexOfKey(r, k) == i
  {
    assert Keys(r)[i] == k;
    var m := IndexOfKey(r, k);
    assert !(m < i) && !(i < m);
  }

  /** `r'` is `r` after `obj[k] = v`, as far as reading it goes. */
  ghost predicate Updated(r: Record, k: string, v: Value, r': Record) {
    && Get(r', k) == v
    && (forall k' :: k' != k ==> Get(r', k') == Get(r, k'))
    && (HasKey(r, k) ==> Keys(r') == Keys(r))
    && (!HasKey(r, k) ==> Keys(r') == Keys(r) + [k])
    && (UniqueKeys(r) ==> UniqueKeys(r'))
  }

  /** `obj[k] = v`: an existing property keeps its place, a new one goes last. */
  function Set(r: Record, k: string, v: Value): (r': Record)
    ensures Get(r', k) == v
    ensures forall k' :: k' != k ==> Get(r', k') == Get(r, k')
    ensures HasKey(r, k) ==> Keys(r') == Keys(r)
    ensures !HasKey(r, k) ==> Keys(r') == Keys(r) + [k]
    ensures UniqueKeys(r) ==> UniqueKeys(r')
  {
    if HasKey(r, k) then
      var r' := r[IndexOfKey(r, k) := (k, v)];
      Overwritten(r, k, v);
      r'
    else
      var r' := r + [(k, v)];
      Appended(r, k, v);
      r'
  }

  /** Overwriting the first property named `k` in place. */
  lemma Overwritten(r: Record, k: string, v: Value)
    requires HasKey(r, k)
    ensures Updated(r, k, v, r[IndexOfKey(r, k) := (k, v)])
  {
    var i := IndexOfKey(r, k);
    var r' := r[i := (k, v)];
    assert Keys(r') == Keys(r);
    FirstIndex(r', k, i);
    SameKeysSameIndex(r, r');
    forall k' | k' != k
      ensures Get(r', k') == Get(r, k')
    {
      if HasKey(r, k') {
        assert IndexOfKey(r', k') == IndexOfKey(r, k');
      }
    }
  }

  /** Appending a property named `k` that was not there. */
  lemma Appended(r: Record, k: string, v: Value)
    requires !HasKey(r, k)
    ensures Updated(r, k, v, r + [(k, v)])
  {
    var r' := r + [(k, v)];
    assert Keys(r') == Keys(r) + [k];
    FirstIndex(r', k, |r|);
    AppendKeepsIndex(r, (k, v));
    forall k' | k' != k
      ensures Get(r', k') == Get(r, k')
    {
      if HasKey(r, k') {
        assert IndexOfKey(r', k') == IndexOfKey(r, k');
      }
    }
  }

  /** Records with the same names find every name at the same position. */
  lemma SameKeysSameIndex(r: Record, r': Record)
    requires Keys(r) == Keys(r')
    ensures forall k' :: HasKey(r, k') ==> HasKey(r', k') && IndexOfKey(r', k') == IndexOfKey(r, k')
  {
    forall k' | HasKey(r, k')
      ensures HasKey(r', k') && IndexOfKey(r', k') == IndexOfKey(r, k')
    {
      var i := IndexOfKey(r, k');
      assert r'[i].0 == Keys(r')[i] == Keys(r)[i] == k';
      forall j | 0 <= j < i
        ensures r'[j].0 != k'
      {
        assert r'[j].0 == Keys(r')[j] == Keys(r)[j] == r[j].0;
      }
      FirstIndex(r', k', i);
    }
  }

  /** Appending a property does not move the ones already there. */
  lemma AppendKeepsIndex(r: Record, x: (string, Value))
    ensures forall k' :: HasKey(r, k') ==> HasKey(r + [x], k') && IndexOfKey(r + [x], k') == IndexOfKey(r, k')
  {
    forall k' | HasKey(r, k')
      ensures HasKey(r + [x], k') && IndexOfKey(r + [x], k') == IndexOfKey(r, k')
    {
      var i := IndexOfKey(r, k');
      FirstIndex(r + [x], k', i);
    }
  }
}
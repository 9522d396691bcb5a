/** Per-recipient placeholder substitution in the rendered HTML
    (app/api/send/route.ts, the loop body before the transport call). Each
    `{{key}}` is matched literally and without regard to ASCII case, the way
    `new RegExp('{{' + key + '}}', 'gi')` matches a key that is literal text
    once wrapped in braces. */
module Placeholders {
  import opened Js

  /** Two strings equal up to ASCII case. */
  predicate SameUpToCase(a: string, b: string) {
    |a| == |b| && forall i :: 0 <= i < |a| ==> LowerChar(a[i]) == LowerChar(b[i])
  }

  /** `s` starts with `pat`, ignoring ASCII case. */
  predicate StartsWithCI(s: string, pat: string) {
    |pat| <= |s| && SameUpToCase(s[..|pat|], pat)
  }

  /** `pat` occurs somewhere in `s`, ignoring ASCII case. */
  predicate Occurs(s: string, pat: string)
    decreases |s|
  {
    StartsWithCI(s, pat) || (|s| > 0 && Occurs(s[1..], pat))
  }

  /** The placeholder for a record key. */
  function Placeholder(key: string): (p: string)
    ensures |p| == |key| + 4
    ensures p[..2] == "{{" && p[|p| - 2..] == "}}" && p[2..|p| - 2] == key
  {
    "{{" + key + "}}"
  }

  /** `s.replace(/pat/gi, rep)`: every leftmost, non-overlapping occurrence of
      `pat` (ignoring case) is replaced by `rep`; the replacement text is not
      rescanned. */
  function ReplaceAll(s: string, pat: string, rep: string): string
    requires pat != []
    decreases |s|
  {
    if StartsWithCI(s, pat) then rep + ReplaceAll(s[|pat|..], pat, rep)
    else if s == [] then []
    else [s[0]] + ReplaceAll(s[1..], pat, rep)
  }

  // ---------------------------------------------------------------------------
  // A reference reading of ReplaceAll: the text cut into kept characters and
  // matched occurrences.

  datatype Piece = Kept(c: char) | Matched(text: string)

  /** The left-to-right segmentation of `s` the global match performs. */
  function Scan(s: string, pat: string): seq<Piece>
    requires pat != []
    decreases |s|
  {
    if StartsWithCI(s, pat) then [Matched(s[..|pat|])] + Scan(s[|pat|..], pat)
    else if s == [] then []
    else [Kept(s[0])] + Scan(s[1..], pat)
  }

  /** The text a segmentation covers. */
  function Flatten(ps: seq<Piece>): string
    decreases |ps|
  {
    if ps == [] then [] else (match ps[0] case Kept(c) => [c] case Matched(t) => t) + Flatten(ps[1..])
  }

  /** The segmentation with every match replaced by `rep`. */
  function Render(ps: seq<Piece>, rep: string): string
    decreases |ps|
  {
    if ps == [] then [] else (match ps[0] case Kept(c) => [c] case Matched(_) => rep) + Render(ps[1..], rep)
  }

  /** The segmentation loses and invents nothing: it covers `s` exactly, each
      matched piece is `pat` up to case, and no kept character starts an
      occurrence of `pat`. */
  lemma {:induction false} ScanCoversInput(s: string, pat: string)
    requires pat != []
    ensures Flatten(Scan(s, pat)) == s
    ensures forall i :: 0 <= i < |Scan(s, pat)| && Scan(s, pat)[i].Matched? ==> SameUpToCase(Scan(s, pat)[i].text, pat)
    ensures forall i :: 0 <= i < |Scan(s, pat)| && Scan(s, pat)[i].Kept? ==> !StartsWithCI(Flatten(Scan(s, pat)[i..]), pat)
  {
    ScanFlattens(s, pat);
    ScanMatchesPattern(s, pat);
    ScanKeptStartsNothing(s, pat);
  }

  /** The segmentation covers `s` exactly. */
  lemma {:induction false} ScanFlattens(s: string, pat: string)
    requires pat != []
    ensures Flatten(Scan(s, pat)) == s
    decreases |s|
  {
    var ps := Scan(s, pat);
    if StartsWithCI(s, pat) {
      ScanFlattens(s[|pat|..], pat);
      assert ps[1..] == Scan(s[|pat|..], pat);
      assert Flatten(ps) == s[..|pat|] + Flatten(ps[1..]);
      assert s == s[..|pat|] + s[|pat|..];
    } else if s != [] {
      ScanFlattens(s[1..], pat);
      assert ps[1..] == Scan(s[1..], pat);
      assert Flatten(ps) == [s[0]] + Flatten(ps[1..]);
      assert s == [s[0]] + s[1..];
    }
  }

  /** Each matched piece is `pat` up to case. */
  lemma {:induction false} ScanMatchesPattern(s: string, pat: string)
    requires pat != []
    ensures forall i :: 0 <= i < |Scan(s, pat)| && Scan(s, pat)[i].Matched? ==> SameUpToCase(Scan(s, pat)[i].text, pat)
    decreases |s|
  {
    var ps := Scan(s, pat);
    if StartsWithCI(s, pat) {
      ScanMatchesPattern(s[|pat|..], pat);
      assert ps[1..] == Scan(s[|pat|..], pat);
      forall i | 0 < i < |ps| ensures ps[i] == Scan(s[|pat|..], pat)[i - 1] { }
    } else if s != [] {
      ScanMatchesPattern(s[1..], pat);
      assert ps[1..] == Scan(s[1..], pat);
      forall i | 0 < i < |ps| ensures ps[i] == Scan(s[1..], pat)[i - 1] { }
    }
  }

  /** No kept character starts an occurrence of `pat`. */
  lemma {:induction false} ScanKeptStartsNothing(s: string, pat: string)
    requires pat != []
    ensures forall i :: 0 <= i < |Scan(s, pat)| && Scan(s, pat)[i].Kept? ==> !StartsWithCI(Flatten(Scan(s, pat)[i..]), pat)
    decreases |s|
  {
    var ps := Scan(s, pat);
    if StartsWithCI(s, pat) {
      var rest := s[|pat|..];
      ScanKeptStartsNothing(rest, pat);
      assert ps[1..] == Scan(rest, pat);
      forall i | 0 < i < |ps| ensures ps[i..] == Scan(rest, pat)[i - 1..] { }
    } else if s != [] {
      var rest := s[1..];
      ScanKeptStartsNothing(rest, pat);
      ScanFlattens(s, pat);
      assert ps[1..] == Scan(rest, pat);
      assert ps[0..] == ps;
      forall i | 0 < i < |ps| ensures ps[i..] == Scan(rest, pat)[i - 1..] { }
    }
  }

  /** Replacing is rendering the segmentation. */
  lemma {:induction false} ReplaceAllIsRender(s: string, pat: string, rep: string)
    requires pat != []
    ensures ReplaceAll(s, pat, rep) == Render(Scan(s, pat), rep)
    decreases |s|
  {
    if StartsWithCI(s, pat) {
      ReplaceAllIsRender(s[|pat|..], pat, rep);
      assert Scan(s, pat)[1..] == Scan(s[|pat|..], pat);
    } else if s != [] {
      ReplaceAllIsRender(s[1..], pat, rep);
      assert Scan(s, pat)[1..] == Scan(s[1..], pat);
    }
  }

  /** Text without an occurrence of `pat` is left as it is. */
  lemma {:induction false} ReplaceAllAbsent(s: string, pat: string, rep: string)
    requires pat != []
    requires !Occurs(s, pat)
    ensures ReplaceAll(s, pat, rep) == s
    decreases |s|
  {
    if s != [] {
      ReplaceAllAbsent(s[1..], pat, rep);
      assert s == [s[0]] + s[1..];
    }
  }

  /** The case of the pattern does not matter: `{{Name}}` and `{{name}}`
      replace the same occurrences. */
  lemma {:induction false} ReplaceAllCaseBlind(s: string, pat: string, pat': string, rep: string)
    requires pat != [] && SameUpToCase(pat, pat')
    ensures ReplaceAll(s, pat, rep) == ReplaceAll(s, pat', rep)
    decreases |s|
  {
    assert StartsWithCI(s, pat) <==> StartsWithCI(s, pat');
    if StartsWithCI(s, pat) {
      ReplaceAllCaseBlind(s[|pat|..], pat, pat', rep);
    } else if s != [] {
      ReplaceAllCaseBlind(s[1..], pat, pat', rep);
    }
  }

  // ---------------------------------------------------------------------------
  // The per-recipient fold

  /** `String(value || '')`: the text a record value is substituted by. */
  function Fill(v: Value): (t: string)
    ensures !Truthy(v) ==> t == ""
    ensures v.Str? ==> t == v.s
  {
    if Truthy(v) then ToStr(v) else ""
  }

  /** The sequential fold over the record's entries, in entry order. */
  function Fold(html: string, entries: Record): string
    decreases |entries|
  {
    if entries == [] then html
    else Fold(ReplaceAll(html, Placeholder(entries[0].0), Fill(entries[0].1)), entries[1..])
  }

  /** The `Name` fallback applies when `name` is falsy and `Name` truthy. */
  predicate UsesNameFallback(rec: Record) {
    !Truthy(Get(rec, "name")) && Truthy(Get(rec, "Name"))
  }

  /** The HTML one recipient receives. */
  function Personalise(html: string, rec: Record): string {
    var h := Fold(html, rec);
    if UsesNameFallback(rec) then ReplaceAll(h, "{{name}}", ToStr(Get(rec, "Name"))) else h
  }

  /** No placeholder of any of the entries' keys occurs in `html`. */
  predicate MentionsNone(html: string, entries: Record) {
    forall i :: 0 <= i < |entries| ==> !Occurs(html, Placeholder(entries[i].0))
  }

  lemma {:induction false} FoldUntouched(html: string, entries: Record)
    requires MentionsNone(html, entries)
    ensures Fold(html, entries) == html
    decreases |entries|
  {
    if entries != [] {
      ReplaceAllAbsent(html, Placeholder(entries[0].0), Fill(entries[0].1));
      assert MentionsNone(html, entries[1..]) by {
        forall i | 0 <= i < |entries[1..]|
          ensures !Occurs(html, Placeholder(entries[1..][i].0))
        {
          assert entries[1..][i] == entries[i + 1];
        }
      }
      FoldUntouched(html, entries[1..]);
    }
  }

  /** HTML mentioning none of the record's keys (nor `{{name}}`, when the
      fallback applies) reaches the recipient unchanged. */
  lemma NothingToReplace(html: string, rec: Record)
    requires MentionsNone(html, rec)
    requires UsesNameFallback(rec) ==> !Occurs(html, "{{name}}")
    ensures Personalise(html, rec) == html
  {
    FoldUntouched(html, rec);
    if UsesNameFallback(rec) {
      ReplaceAllAbsent(html, "{{name}}", ToStr(Get(rec, "Name")));
    }
  }

  /** Neither brace occurs in `s`. */
  predicate BraceFree(s: string) {
    '{' !in s && '}' !in s
  }

  /** A key matches the placeholder `{{u}}`: it is `u` up to case. */
  predicate NamesKey(k: string, u: string) {
    SameUpToCase(k, u)
  }

  /** Case folding leaves braces alone and makes none. */
  lemma LowerBrace(c: char)
    ensures LowerChar(c) == '{' <==> c == '{'
    ensures LowerChar(c) == '}' <==> c == '}'
  {
  }

  /** No occurrence of `{{k}}` starts inside the placeholder `{{u}}` of
      another brace-free key. */
  lemma NoMatchInside(u: string, k: string, j: nat, y: string)
    requires BraceFree(u) && BraceFree(k) && !NamesKey(k, u)
    requires j < |Placeholder(u)|
    ensures !StartsWithCI(Placeholder(u)[j..] + y, Placeholder(k))
  {
    var p, q := Placeholder(u), Placeholder(k);
    var t := p[j..] + y;
    if StartsWithCI(t, q) {
      var m := t[..|q|];
      assert LowerChar(m[0]) == LowerChar(q[0]) && LowerChar(m[1]) == LowerChar(q[1]);
      LowerBrace(m[0]);
      LowerBrace(m[1]);
      assert q[0] == '{' && q[1] == '{';
      if j >= 1 {
        assert false;
      }
      assert t[..|p|] == p;
      if |k| < |u| {
        assert q[|k| + 2] == '}' && t[|k| + 2] == u[|k|];
        LowerBrace(u[|k|]);
        assert false;
      } else if |u| < |k| {
        assert t[|u| + 2] == '}' && q[|u| + 2] == k[|u|];
        LowerBrace(k[|u|]);
        assert false;
      } else {
        assert SameUpToCase(k, u) by {
          forall i | 0 <= i < |k|
            ensures LowerChar(k[i]) == LowerChar(u[i])
          {
            assert q[i + 2] == k[i] && t[i + 2] == u[i];
          }
        }
      }
    }
  }

  /** An occurrence of `{{k}}` that starts before the placeholder `{{u}}`
      ends before it. */
  lemma NoMatchAcross(x: string, u: string, y: string, k: string)
    requires BraceFree(u) && BraceFree(k)
    requires x != [] && StartsWithCI(x + Placeholder(u) + y, Placeholder(k))
    ensures |Placeholder(k)| <= |x|
  {
    var p, q := Placeholder(u), Placeholder(k);
    var s := x + p + y;
    if |x| < |q| {
      assert s[|x|] == '{';
      assert LowerChar(s[|x|]) == LowerChar(q[|x|]);
      LowerBrace(q[|x|]);
      assert |x| == 1;
      assert s[2] == '{' && LowerChar(s[2]) == LowerChar(q[2]);
      LowerBrace(q[2]);
      assert false;
    }
  }

  /** No occurrence of `q` starts inside `p` when `p` is followed by `y`. */
  predicate NoneInside(p: string, y: string, q: string) {
    forall j :: 0 <= j < |p| ==> !StartsWithCI(p[j..] + y, q)
  }

  /** No occurrence of `q` starting before `t` reaches into it. */
  ghost predicate NoneInto(t: string, q: string) {
    forall x :: x != [] && StartsWithCI(x + t, q) ==> |q| <= |x|
  }

  /** One step of the scan past a character that starts no occurrence. */
  lemma KeepStep(c: char, t: string, q: string, rep: string)
    requires q != [] && !StartsWithCI([c] + t, q)
    ensures ReplaceAll([c] + t, q, rep) == [c] + ReplaceAll(t, q, rep)
  {
    assert ([c] + t)[1..] == t;
  }

  /** One step of the scan over a match. */
  lemma MatchStep(m: string, t: string, q: string, rep: string)
    requires q != [] && |m| == |q| && StartsWithCI(m + t, q)
    ensures ReplaceAll(m + t, q, rep) == rep + ReplaceAll(t, q, rep)
  {
    assert (m + t)[|q|..] == t;
  }

  /** What `NoneInside` says of a nonempty `p`'s first character and rest. */
  lemma NoneInsideTail(p: string, y: string, q: string)
    requires p != [] && NoneInside(p, y, q)
    ensures !StartsWithCI([p[0]] + (p[1..] + y), q)
    ensures NoneInside(p[1..], y, q)
  {
    assert [p[0]] + (p[1..] + y) == p[0..] + y;
    forall j | 0 <= j < |p[1..]|
      ensures !StartsWithCI(p[1..][j..] + y, q)
    {
      assert p[1..][j..] == p[j + 1..];
    }
  }

  /** The scan passes over `p` without a match when none starts inside it. */
  lemma {:induction false} PassOver(p: string, y: string, q: string, rep: string)
    requires q != [] && NoneInside(p, y, q)
    ensures ReplaceAll(p + y, q, rep) == p + ReplaceAll(y, q, rep)
    decreases |p|
  {
    if p == [] {
      assert p + y == y;
    } else {
      NoneInsideTail(p, y, q);
      KeepStep(p[0], p[1..] + y, q, rep);
      PassOver(p[1..], y, q, rep);
      assert [p[0]] + (p[1..] + y) == p + y;
      assert [p[0]] + (p[1..] + ReplaceAll(y, q, rep)) == p + ReplaceAll(y, q, rep);
    }
  }

  /** A match of `q` at the start of `x + t` that stays within `x`. */
  lemma MatchWithin(x: string, t: string, q: string, rep: string, rt: string)
    requires q != [] && |q| <= |x| && StartsWithCI(x + t, q)
    requires ReplaceAll(x[|q|..] + t, q, rep) == ReplaceAll(x[|q|..], q, rep) + rt
    ensures ReplaceAll(x + t, q, rep) == ReplaceAll(x, q, rep) + rt
  {
    var m, x' := x[..|q|], x[|q|..];
    assert x == m + x' && x + t == m + (x' + t);
    assert StartsWithCI(x, q) by { assert (x + t)[..|q|] == x[..|q|]; }
    MatchStep(m, x' + t, q, rep);
    MatchStep(m, x', q, rep);
  }

  /** A first character of `x` that starts no match of `q` in `x + t`. */
  lemma KeepWithin(x: string, t: string, q: string, rep: string, rt: string)
    requires q != [] && x != [] && !StartsWithCI(x + t, q)
    requires ReplaceAll(x[1..] + t, q, rep) == ReplaceAll(x[1..], q, rep) + rt
    ensures ReplaceAll(x + t, q, rep) == ReplaceAll(x, q, rep) + rt
  {
    var x' := x[1..];
    assert x == [x[0]] + x' && x + t == [x[0]] + (x' + t);
    assert !StartsWithCI(x, q) by {
      if |q| <= |x| { assert (x + t)[..|q|] == x[..|q|]; }
    }
    KeepStep(x[0], x' + t, q, rep);
    KeepStep(x[0], x', q, rep);
  }

  /** Replacing throughout `x + t` is replacing in `x` and in `t` apart,
      when no occurrence starting in `x` reaches into `t`. */
  lemma {:induction false} ReplaceBefore(x: string, t: string, q: string, rep: string)
    requires q != [] && NoneInto(t, q)
    ensures ReplaceAll(x + t, q, rep) == ReplaceAll(x, q, rep) + ReplaceAll(t, q, rep)
    decreases |x|
  {
    var rt := ReplaceAll(t, q, rep);
    if x == [] {
      assert x + t == t;
    } else if StartsWithCI(x + t, q) {
      ReplaceBefore(x[|q|..], t, q, rep);
      MatchWithin(x, t, q, rep, rt);
    } else {
      ReplaceBefore(x[1..], t, q, rep);
      KeepWithin(x, t, q, rep, rt);
    }
  }

  /** Replacing throughout `x + p + y` is replacing in `x` and in `y` apart,
      when no occurrence starts inside `p` or reaches into it. */
  lemma ReplaceBeside(x: string, p: string, y: string, q: string, rep: string)
    requires q != [] && NoneInside(p, y, q) && NoneInto(p + y, q)
    ensures ReplaceAll(x + p + y, q, rep) == ReplaceAll(x, q, rep) + p + ReplaceAll(y, q, rep)
  {
    ReplaceBefore(x, p + y, q, rep);
    PassOver(p, y, q, rep);
    Regroup(x, p, y);
    Regroup(ReplaceAll(x, q, rep), p, ReplaceAll(y, q, rep));
  }

  /** `NoMatchInside` for every position of the placeholder. */
  lemma PlaceholderNoneInside(u: string, k: string, y: string)
    requires BraceFree(u) && BraceFree(k) && !NamesKey(k, u)
    ensures NoneInside(Placeholder(u), y, Placeholder(k))
  {
    forall j | 0 <= j < |Placeholder(u)|
      ensures !StartsWithCI(Placeholder(u)[j..] + y, Placeholder(k))
    {
      NoMatchInside(u, k, j, y);
    }
  }

  /** `NoMatchAcross` for every text before the placeholder. */
  lemma PlaceholderNoneInto(u: string, k: string, y: string)
    requires BraceFree(u) && BraceFree(k)
    ensures NoneInto(Placeholder(u) + y, Placeholder(k))
  {
    var p, q := Placeholder(u), Placeholder(k);
    forall x | x != [] && StartsWithCI(x + (p + y), q)
      ensures |q| <= |x|
    {
      assert x + (p + y) == x + p + y;
      NoMatchAcross(x, u, y, k);
    }
  }

  /** Replacing a brace-free key's placeholder passes over the placeholder
      of another brace-free key, acting on each side of it alone. */
  lemma ReplaceAround(x: string, u: string, y: string, k: string, rep: string)
    requires BraceFree(u) && BraceFree(k) && !NamesKey(k, u)
    ensures ReplaceAll(x + Placeholder(u) + y, Placeholder(k), rep) ==
      ReplaceAll(x, Placeholder(k), rep) + Placeholder(u) + ReplaceAll(y, Placeholder(k), rep)
  {
    PlaceholderNoneInside(u, k, y);
    PlaceholderNoneInto(u, k, y);
    ReplaceBeside(x, Placeholder(u), y, Placeholder(k), rep);
  }

  /** Keys that are brace-free and do not name `{{u}}`. */
  predicate AllOthers(rec: Record, u: string) {
    forall i :: 0 <= i < |rec| ==> BraceFree(rec[i].0) && !NamesKey(rec[i].0, u)
  }

  lemma {:induction false} FoldAround(x: string, u: string, y: string, rec: Record)
    requires BraceFree(u) && AllOthers(rec, u)
    ensures Fold(x + Placeholder(u) + y, rec) == Fold(x, rec) + Placeholder(u) + Fold(y, rec)
    decreases |rec|
  {
    if rec != [] {
      var k, f := rec[0].0, Fill(rec[0].1);
      ReplaceAround(x, u, y, k, f);
      assert AllOthers(rec[1..], u) by {
        forall i | 0 <= i < |rec[1..]|
          ensures BraceFree(rec[1..][i].0) && !NamesKey(rec[1..][i].0, u)
        {
          assert rec[1..][i] == rec[i + 1];
        }
      }
      FoldAround(ReplaceAll(x, Placeholder(k), f), u, ReplaceAll(y, Placeholder(k), f), rec[1..]);
    }
  }

  /** The `{{name}}` fallback passes over any other brace-free key's
      placeholder. */
  lemma FallbackAround(x: string, u: string, y: string, rep: string)
    requires BraceFree(u) && !NamesKey("name", u)
    ensures ReplaceAll(x + Placeholder(u) + y, "{{name}}", rep) ==
      ReplaceAll(x, "{{name}}", rep) + Placeholder(u) + ReplaceAll(y, "{{name}}", rep)
  {
    assert Placeholder("name") == "{{name}}";
    ReplaceAround(x, u, y, "name", rep);
  }

  /** A placeholder whose key is not in the record reaches the recipient
      verbatim, wherever it stands among known placeholders: the text on each
      side of it is personalised as if on its own. Keys are taken free of
      braces, as a placeholder's key is. */
  lemma UnknownPlaceholdersKept(x: string, u: string, y: string, rec: Record)
    requires BraceFree(u) && AllOthers(rec, u)
    requires UsesNameFallback(rec) ==> !NamesKey("name", u)
    ensures Personalise(x + Placeholder(u) + y, rec) == Personalise(x, rec) + Placeholder(u) + Personalise(y, rec)
  {
    FoldAround(x, u, y, rec);
    if UsesNameFallback(rec) {
      FallbackAround(Fold(x, rec), u, Fold(y, rec), ToStr(Get(rec, "Name")));
    }
  }

  /** A record with a single entry replaces that key's placeholder, in any
      case, by the entry's value, and a falsy value by the empty string. */
  lemma SingleEntry(html: string, key: string, v: Value)
    requires key == "Name" ==> !Truthy(v)
    ensures Personalise(html, [(key, v)]) == ReplaceAll(html, Placeholder(key), Fill(v))
    ensures !Truthy(v) ==> Personalise(html, [(key, v)]) == ReplaceAll(html, Placeholder(key), "")
  {
    var rec := [(key, v)];
    assert Keys(rec) == [key];
    assert !UsesNameFallback(rec) by {
      if key != "Name" { assert Get(rec, "Name") == Undefined; }
    }
    assert rec[1..] == [];
    var h := ReplaceAll(html, Placeholder(key), Fill(v));
    assert Fold(html, rec) == Fold(h, []) == h;
  }

  /** The fold is sequential: the entries after a split point act on what the
      entries before it produced, so an earlier value that itself contains a
      later key's placeholder gets that placeholder replaced too. */
  lemma {:induction false} FoldAppend(html: string, e1: Record, e2: Record)
    ensures Fold(html, e1 + e2) == Fold(Fold(html, e1), e2)
    decreases |e1|
  {
    if e1 == [] {
      assert e1 + e2 == e2;
    } else {
      assert (e1 + e2)[0] == e1[0] && (e1 + e2)[1..] == e1[1..] + e2;
      FoldAppend(ReplaceAll(html, Placeholder(e1[0].0), Fill(e1[0].1)), e1[1..], e2);
    }
  }

  /** The fallback matters only for a `{{name}}` that a later entry's value
      brings in. The `Name` entry's own step already replaces `{{name}}` of the
      template in any case, so with `{{name}}` written in the template the fold
      alone gives the name; when the next entry's value is `{{name}}`, the fold
      leaves it and only the fallback fills it in. */
  lemma FallbackCatchesLateName(n: string, k: string)
    requires n != [] && BraceFree(k) && !NamesKey(k, "name")
    ensures Fold(Placeholder("name"), [("Name", Str(n))]) == n
    ensures Fold(Placeholder(k), [("Name", Str(n)), (k, Str("{{name}}"))]) == "{{name}}"
    ensures Personalise(Placeholder(k), [("Name", Str(n)), (k, Str("{{name}}"))]) == n
  {
    EarlyName(n);
    LateFold(n, k);
    LateFallback(n, k);
  }

  /** Text that is the pattern up to case is replaced whole. */
  lemma WholeMatch(m: string, pat: string, rep: string)
    requires pat != [] && SameUpToCase(m, pat)
    ensures ReplaceAll(m, pat, rep) == rep
  {
    MatchStep(m, "", pat, rep);
    assert m + "" == m;
  }

  /** `{{name}}` written in the template is replaced by the `Name` entry. */
  lemma EarlyName(n: string)
    ensures Fold(Placeholder("name"), [("Name", Str(n))]) == n
  {
    var rec: Record := [("Name", Str(n))];
    assert SameUpToCase(Placeholder("name"), Placeholder("Name")) by {
      assert LowerChar('N') == 'n';
    }
    WholeMatch(Placeholder("name"), Placeholder("Name"), Fill(Str(n)));
    assert rec[1..] == [];
  }

  /** `Name` and `name` name the same keys. */
  lemma NameSpellings(k: string)
    ensures NamesKey("Name", k) <==> NamesKey(k, "name")
  {
    forall i | 0 <= i < 4
      ensures LowerChar("Name"[i]) == LowerChar("name"[i])
    {
    }
  }

  /** A later entry whose value is `{{name}}` leaves `{{name}}` after the fold. */
  lemma LateFold(n: string, k: string)
    requires BraceFree(k) && !NamesKey(k, "name")
    ensures Fold(Placeholder(k), [("Name", Str(n)), (k, Str("{{name}}"))]) == "{{name}}"
  {
    var late: Record := [("Name", Str(n)), (k, Str("{{name}}"))];
    NameSpellings(k);
    ReplaceAround("", k, "", "Name", Fill(Str(n)));
    assert "" + Placeholder(k) + "" == Placeholder(k);
    assert ReplaceAll("", Placeholder("Name"), Fill(Str(n))) == "";
    WholeMatch(Placeholder(k), Placeholder(k), "{{name}}");
    var rest := late[1..];
    assert rest == [(k, Str("{{name}}"))] && rest[1..] == [];
    assert Fold(Placeholder(k), late) == Fold(Placeholder(k), rest);
    assert Fold(Placeholder(k), rest) == Fold("{{name}}", []);
  }

  /** The fallback fills in the `{{name}}` the fold left. */
  lemma LateFallback(n: string, k: string)
    requires n != [] && BraceFree(k) && !NamesKey(k, "name")
    ensures Personalise(Placeholder(k), [("Name", Str(n)), (k, Str("{{name}}"))]) == n
  {
    LateFold(n, k);
    var late: Record := [("Name", Str(n)), (k, Str("{{name}}"))];
    assert k != "name" && Get(late, "name") == Undefined && Get(late, "Name") == Str(n);
    WholeMatch("{{name}}", "{{name}}", n);
  }

}

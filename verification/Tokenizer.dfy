/** Splitting a program into tokens (split and add_nonempty in interpreter/interpreter.cc). */
module Tokenizer {
  import opened Collections

  /** isspace in the C locale. */
  predicate IsSpace(c: char) {
    c == ' ' || '\U{9}' <= c <= '\U{D}'
  }

  // ----- What the tokens are -----

  function TrimLeft(s: string): string {
    if s != [] && IsSpace(s[0]) then TrimLeft(s[1..]) else s
  }

  function TrimRight(s: string): string {
    if s != [] && IsSpace(s[|s| - 1]) then TrimRight(s[..|s| - 1]) else s
  }

  function Trim(s: string): string { TrimRight(TrimLeft(s)) }

  function FirstComma(s: string): (c: nat)
    ensures c <= |s|
  {
    if s == [] || s[0] == ',' then 0 else 1 + FirstComma(s[1..])
  }

  lemma {:induction false} FirstCommaIsFirst(s: string)
    ensures var c := FirstComma(s); (c < |s| ==> s[c] == ',') && forall i :: 0 <= i < c ==> s[i] != ','
  {
    if s != [] && s[0] != ',' { FirstCommaIsFirst(s[1..]); }
  }

  /** The fields between commas; one more than there are commas. */
  function Fields(s: string): seq<string>
    decreases |s|
  {
    var c := FirstComma(s);
    if c == |s| then [s] else [s[..c]] + Fields(s[c + 1..])
  }

  /** The token of one field, if it has one. */
  function TokenOf(field: string): seq<string> {
    if Trim(field) == [] then [] else [Trim(field)]
  }

  /** The trimmed fields that are not empty, in order. */
  function Trimmed(fields: seq<string>): seq<string> {
    if fields == [] then [] else TokenOf(fields[0]) + Trimmed(fields[1..])
  }

  function Tokens(s: string): seq<string> { Trimmed(Fields(s)) }

  // ----- Trimming by index -----

  lemma {:induction false} TrimLeftAt(s: string, i: nat)
    requires i <= |s| && (forall k :: 0 <= k < i ==> IsSpace(s[k])) && (i < |s| ==> !IsSpace(s[i]))
    ensures TrimLeft(s) == s[i..]
  {
    if i > 0 {
      TrimLeftAt(s[1..], i - 1);
      assert s[1..][i - 1..] == s[i..];
    }
  }

  lemma {:induction false} TrimRightAt(s: string, k: nat)
    requires k <= |s| && (forall j :: k <= j < |s| ==> IsSpace(s[j])) && (k > 0 ==> !IsSpace(s[k - 1]))
    ensures TrimRight(s) == s[..k]
    decreases |s|
  {
    if k < |s| {
      var t := s[..|s| - 1];
      TrimRightAt(t, k);
      assert t[..k] == s[..k];
    } else {
      assert s[..k] == s;
    }
  }

  // ----- The loops -----

  /** std::string::find of a comma from `i`. */
  method FindComma(s: string, i: nat) returns (j: Option<nat>)
    requires i <= |s|
    ensures j == var c := i + FirstComma(s[i..]); if c == |s| then None else Some(c)
  {
    var c := i;
    while c < |s| && s[c] != ','
      invariant i <= c <= |s|
      invariant i + FirstComma(s[i..]) == c + FirstComma(s[c..])
    {
      assert s[c..][1..] == s[c + 1..];
      c := c + 1;
    }
    if c < |s| {
      assert s[c..][0] == ',';
    }
    j := if c < |s| then Some(c) else None;
  }

  /** Skip spaces from `b`, not past `end`. */
  method SkipSpaces(s: string, b: nat, ghost end: nat) returns (i: nat)
    requires b <= end <= |s| && (end < |s| ==> s[end] == ',')
    ensures b <= i <= end && TrimLeft(s[b..end]) == s[i..end]
  {
    i := b;
    while i < |s| && IsSpace(s[i])
      invariant b <= i <= end
      invariant forall k :: b <= k < i ==> IsSpace(s[k])
    {
      i := i + 1;
    }
    TrimLeftAt(s[b..end], i - b);
    assert s[b..end][i - b..] == s[i..end];
  }

  /** Push s[i..j] less its trailing spaces, unless nothing is left. The scan may run back past `i`. */
  method AddNonempty(i: nat, j: nat, s: string, result: seq<string>) returns (r: seq<string>)
    requires i <= j <= |s| && (i < j ==> !IsSpace(s[i]))
    ensures r == result + (var t := TrimRight(s[i..j]); if t == [] then [] else [t])
  {
    var k: int := j - 1;
    while k >= 0 && IsSpace(s[k])
      invariant -1 <= k < j
      invariant forall m :: k < m < j ==> IsSpace(s[m])
      invariant i < j ==> i <= k
    {
      k := k - 1;
    }
    k := k + 1;
    r := result;
    if k > i {
      r := r + [s[i..k]];
      TrimRightAt(s[i..j], k - i);
      assert s[i..j][..k - i] == s[i..k];
    } else {
      assert s[i..j] == [];
    }
  }

  /** End of the field that starts at `b`. */
  function FieldEnd(s: string, b: nat): (c: nat)
    requires b <= |s|
    ensures b <= c <= |s| && (c < |s| ==> s[c] == ',')
  {
    FirstCommaIsFirst(s[b..]);
    b + FirstComma(s[b..])
  }

  lemma {:induction false} TokensStep(s: string, b: nat)
    requires b <= |s|
    ensures var c := FieldEnd(s, b);
      Tokens(s[b..]) == TokenOf(s[b..c]) + if c < |s| then Tokens(s[c + 1..]) else []
  {
    var c := FieldEnd(s, b);
    Slices(s, b, c);
    if c < |s| { MoreFields(s[b..], c - b, s[b..c], s[c + 1..]); } else { LastField(s[b..]); }
  }

  lemma {:induction false} Slices(s: string, b: nat, c: nat)
    requires b <= c <= |s|
    ensures s[b..][..c - b] == s[b..c]
    ensures c < |s| ==> s[b..][c - b + 1..] == s[c + 1..]
    ensures c == |s| ==> s[b..c] == s[b..]
  {
  }

  lemma {:induction false} MoreFields(t: string, n: nat, field: string, rest: string)
    requires n == FirstComma(t) < |t| && field == t[..n] && rest == t[n + 1..]
    ensures Tokens(t) == TokenOf(field) + Tokens(rest)
  {
    FieldsMore(t);
    TrimmedCons(field, Fields(rest));
  }

  lemma {:induction false} FieldsMore(t: string)
    requires FirstComma(t) < |t|
    ensures Fields(t) == [t[..FirstComma(t)]] + Fields(t[FirstComma(t) + 1..])
  {
  }

  lemma {:induction false} LastField(t: string)
    requires FirstComma(t) == |t|
    ensures Tokens(t) == TokenOf(t) + []
  {
    assert Fields(t) == [t] + [];
    TrimmedCons(t, []);
  }

  /** Taking one field's token from what is left keeps the whole. */
  lemma {:induction false} FieldTaken(s: string, b: nat, result: seq<string>)
    requires b <= |s|
    ensures var c := FieldEnd(s, b);
      result + TokenOf(s[b..c]) + (if c < |s| then Tokens(s[c + 1..]) else []) == result + Tokens(s[b..])
  {
    var c := FieldEnd(s, b);
    TokensStep(s, b);
    Regroup(result, TokenOf(s[b..c]), if c < |s| then Tokens(s[c + 1..]) else []);
  }

  lemma {:induction false} Regroup(a: seq<string>, t: seq<string>, rest: seq<string>)
    ensures (a + t) + rest == a + (t + rest)
  {
  }

  /** `i` is where the field from `b` starts once its leading spaces are skipped, `j` the comma that ends it. */
  ghost predicate AtField(s: string, b: nat, i: nat, j: Option<nat>)
    requires b <= |s|
  {
    var c := FieldEnd(s, b);
    && b <= i <= c && TrimLeft(s[b..c]) == s[i..c] && (i < c ==> !IsSpace(s[i]))
    && j == if c == |s| then None else Some(c)
  }

  /** Skip spaces, then find the comma. */
  method NextField(s: string, b: nat) returns (i: nat, j: Option<nat>)
    requires b <= |s|
    ensures AtField(s, b, i, j)
  {
    ghost var c := FieldEnd(s, b);
    i := SkipSpaces(s, b, c);
    TrimLeftStarts(s[b..c]);
    assert i < c ==> s[i..c][0] == s[i];
    CommaFrom(s, b, i);
    j := FindComma(s, i);
  }

  /** Push the token of the field from `b`. */
  method AddToken(s: string, ghost b: nat, i: nat, j: Option<nat>, result: seq<string>) returns (r: seq<string>)
    requires b <= |s| && AtField(s, b, i, j)
    ensures r + (if j.Some? then Tokens(s[j.value + 1..]) else []) == result + Tokens(s[b..])
  {
    r := AddField(s, b, i, if j.Some? then j.value else |s|, result);
    FieldTaken(s, b, result);
  }

  method AddField(s: string, ghost b: nat, i: nat, end: nat, result: seq<string>) returns (r: seq<string>)
    requires b <= i <= end <= |s| && TrimLeft(s[b..end]) == s[i..end] && (i < end ==> !IsSpace(s[i]))
    ensures r == result + TokenOf(s[b..end])
  {
    r := AddNonempty(i, end, s, result);
    TokenFrom(s, b, i, end);
  }

  lemma {:induction false} TokenFrom(s: string, b: nat, i: nat, end: nat)
    requires b <= i <= end <= |s| && TrimLeft(s[b..end]) == s[i..end]
    ensures TokenOf(s[b..end]) == var t := TrimRight(s[i..end]); if t == [] then [] else [t]
  {
  }

  method Split(s: string) returns (result: seq<string>)
    ensures result == Tokens(s)
  {
    result := [];
    ghost var b := 0;
    assert s[0..] == s;
    var i, j := NextField(s, 0);
    while j.Some?
      invariant b <= |s| && AtField(s, b, i, j)
      invariant result + Tokens(s[b..]) == Tokens(s)
      decreases |s| - b
    {
      result := AddToken(s, b, i, j, result);
      b := j.value + 1;
      i, j := NextField(s, j.value + 1);
    }
    result := AddToken(s, b, i, j, result);
  }

  lemma {:induction false} CommaFrom(s: string, b: nat, i: nat)
    requires b <= |s| && b <= i <= b + FirstComma(s[b..])
    ensures i <= |s| && i + FirstComma(s[i..]) == b + FirstComma(s[b..])
    decreases i - b
  {
    if b < i {
      assert s[b..][1..] == s[b + 1..];
      CommaFrom(s, b + 1, i);
    }
  }

  lemma {:induction false} TrimLeftStarts(s: string)
    ensures TrimLeft(s) != [] ==> !IsSpace(TrimLeft(s)[0])
  {
    if s != [] && IsSpace(s[0]) { TrimLeftStarts(s[1..]); }
  }

  lemma {:induction false} TrimmedCons(f: string, rest: seq<string>)
    ensures Trimmed([f] + rest) == TokenOf(f) + Trimmed(rest)
  {
    assert ([f] + rest)[1..] == rest;
  }

  // ----- Joining is undone -----

  /** A token that survives: not empty, no comma, no space at either end. */
  predicate CleanToken(t: string) {
    t != [] && ',' !in t && !IsSpace(t[0]) && !IsSpace(t[|t| - 1])
  }

  function Join(ts: seq<string>): string {
    if ts == [] then [] else if |ts| == 1 then ts[0] else ts[0] + "," + Join(ts[1..])
  }

  lemma {:induction false} FirstCommaPrefix(t: string, rest: string)
    requires ',' !in t && (rest == [] || rest[0] == ',')
    ensures FirstComma(t + rest) == |t|
  {
    if t != [] {
      assert (t + rest)[1..] == t[1..] + rest;
      FirstCommaPrefix(t[1..], rest);
    } else {
      assert t + rest == rest;
    }
  }

  lemma {:induction false} CleanIsTrim(t: string)
    requires CleanToken(t)
    ensures Trim(t) == t
  {
    TrimLeftAt(t, 0);
    TrimRightAt(t, |t|);
  }

  /** The tokens of fields joined with commas are those of the fields, one by one. */
  lemma {:induction false} JoinedFields(fs: seq<string>)
    requires fs != [] && forall f :: f in fs ==> ',' !in f
    ensures Tokens(Join(fs)) == Trimmed(fs)
  {
    if |fs| == 1 {
      LastOfJoined(fs[0]);
      assert fs == [fs[0]];
    } else {
      JoinedFields(fs[1..]);
      FirstOfJoined(fs[0], Join(fs[1..]));
      assert fs == [fs[0]] + fs[1..];
      TrimmedCons(fs[0], fs[1..]);
    }
  }

  lemma {:induction false} LastOfJoined(f: string)
    requires ',' !in f
    ensures Tokens(f) == Trimmed([f])
  {
    FirstCommaPrefix(f, []);
    assert f + [] == f;
    assert Fields(f) == [f];
  }

  lemma {:induction false} FirstOfJoined(f: string, rest: string)
    requires ',' !in f
    ensures Tokens(f + "," + rest) == TokenOf(f) + Tokens(rest)
  {
    var s := f + "," + rest;
    assert s == f + ("," + rest);
    FirstCommaPrefix(f, "," + rest);
    assert s[..|f|] == f && s[|f| + 1..] == rest;
    FieldsMore(s);
    TrimmedCons(f, Fields(rest));
  }

  /** Splitting undoes joining clean tokens with commas. */
  lemma {:induction false} SplitUndoesJoin(ts: seq<string>)
    requires forall t :: t in ts ==> CleanToken(t)
    ensures Tokens(Join(ts)) == ts
  {
    if ts == [] {
      assert Trim([]) == [];
    } else {
      JoinedFields(ts);
      CleanAreTrimmed(ts);
    }
  }

  lemma {:induction false} CleanAreTrimmed(ts: seq<string>)
    requires forall t :: t in ts ==> CleanToken(t)
    ensures Trimmed(ts) == ts
  {
    if ts != [] {
      CleanIsTrim(ts[0]);
      CleanAreTrimmed(ts[1..]);
      assert ts == [ts[0]] + ts[1..];
    }
  }

  // ----- Padding -----

  /** Space, tab, newline, vertical tab, form feed and carriage return. */
  const BLANKS: string := " \t\n\U{B}\U{C}\r"

  lemma SpacesAreBlanks(c: char)
    ensures IsSpace(c) <==> c in BLANKS
  {
    assert BLANKS == [' ', '\t', '\n', '\U{B}', '\U{C}', '\r'];
  }

  ghost predicate AllBlank(s: string) { forall c :: c in s ==> c in BLANKS }

  /** A token as it may be written: not empty, no comma, no blank at an end. */
  ghost predicate Written(t: string) {
    t != [] && ',' !in t && t[0] !in BLANKS && t[|t| - 1] !in BLANKS
  }

  /** `f` is `t` with blanks around it. */
  ghost predicate Padded(f: string, t: string) {
    exists l, r :: AllBlank(l) && AllBlank(r) && f == l + t + r
  }

  lemma {:induction false} PaddingTrimmed(l: string, t: string, r: string)
    requires Written(t) && AllBlank(l) && AllBlank(r)
    ensures Trim(l + t + r) == t && ',' !in l + t + r
  {
    var f := l + t + r;
    forall c ensures IsSpace(c) <==> c in BLANKS { SpacesAreBlanks(c); }
    assert ',' !in BLANKS;
    assert forall i :: 0 <= i < |l| ==> f[i] == l[i] && l[i] in l;
    assert f[|l|] == t[0];
    TrimLeftAt(f, |l|);
    assert f[|l|..] == t + r;
    assert forall i :: |t| <= i < |t + r| ==> (t + r)[i] == r[i - |t|] && r[i - |t|] in r;
    TrimRightAt(t + r, |t|);
    assert (t + r)[..|t|] == t;
  }

  /** Blanks around the tokens of a program, of any of the six kinds, change nothing. */
  lemma {:induction false} PaddingIgnored(fs: seq<string>, ts: seq<string>)
    requires ts != [] && |fs| == |ts| && forall i :: 0 <= i < |ts| ==> Written(ts[i]) && Padded(fs[i], ts[i])
    ensures Tokens(Join(fs)) == ts
  {
    forall f | f in fs ensures ',' !in f {
      var i :| 0 <= i < |fs| && fs[i] == f;
      var l, r :| AllBlank(l) && AllBlank(r) && fs[i] == l + ts[i] + r;
      PaddingTrimmed(l, ts[i], r);
    }
    JoinedFields(fs);
    PaddedAreTrimmed(fs, ts);
  }

  lemma {:induction false} PaddedAreTrimmed(fs: seq<string>, ts: seq<string>)
    requires |fs| == |ts| && forall i :: 0 <= i < |ts| ==> Written(ts[i]) && Padded(fs[i], ts[i])
    ensures Trimmed(fs) == ts
  {
    if ts != [] {
      assert Written(ts[0]) && Padded(fs[0], ts[0]);
      var l, r :| AllBlank(l) && AllBlank(r) && fs[0] == l + ts[0] + r;
      PaddingTrimmed(l, ts[0], r);
      PaddedAreTrimmed(fs[1..], ts[1..]);
      assert ts == [ts[0]] + ts[1..];
    }
  }

  /** No token is empty, holds a comma, or has a space at an end. */
  lemma {:induction false} TokensAreClean(s: string)
    ensures forall t :: t in Tokens(s) ==> CleanToken(t)
    decreases |s|
  {
    var c := FirstComma(s);
    var f := s[..c];
    FirstCommaIsFirst(s);
    TrimIsClean(f);
    if c == |s| {
      assert f == s && [s] + [] == [s];
      assert Fields(s) == [s];
      TrimmedCons(s, []);
    } else {
      TokensAreClean(s[c + 1..]);
      assert Fields(s) == [f] + Fields(s[c + 1..]);
      TrimmedCons(f, Fields(s[c + 1..]));
    }
  }

  lemma {:induction false} TrimIsClean(f: string)
    requires ',' !in f
    ensures Trim(f) != [] ==> CleanToken(Trim(f))
  {
    TrimLeftStarts(f);
    TrimLeftPart(f);
    TrimRightPart(TrimLeft(f));
  }

  lemma {:induction false} TrimLeftPart(f: string)
    ensures forall c :: c in TrimLeft(f) ==> c in f
  {
    if f != [] && IsSpace(f[0]) { TrimLeftPart(f[1..]); }
  }

  lemma {:induction false} TrimRightPart(f: string)
    ensures forall c :: c in TrimRight(f) ==> c in f
    ensures TrimRight(f) != [] ==> TrimRight(f)[0] == f[0] && !IsSpace(TrimRight(f)[|TrimRight(f)| - 1])
  {
    if f != [] && IsSpace(f[|f| - 1]) { TrimRightPart(f[..|f| - 1]); }
  }
}

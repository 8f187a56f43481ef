/** internal/prober/interpolation/interpolation.go: ${name} templates compiled
    to JavaScript, and ${secrets.name} placeholders resolved. Strings are
    sequences of bytes; a JavaScript string is a sequence of code units. */
module Interpolation {
  import opened Common

  type bytes = seq<byte>

  function B(c: char): byte requires c as int < 256 { c as int }

  // ---- Placeholders ----

  predicate NameStart(b: byte) { B('a') <= b <= B('z') || B('A') <= b <= B('Z') || b == B('_') }

  predicate NameByte(b: byte) { NameStart(b) || B('0') <= b <= B('9') || b == B('-') }

  /** How many leading bytes can be part of a name. */
  function NameRun(s: bytes): (n: nat)
    ensures n <= |s|
    ensures forall i :: 0 <= i < n ==> NameByte(s[i])
    ensures n < |s| ==> !NameByte(s[n])
  {
    if s == [] || !NameByte(s[0]) then 0 else 1 + NameRun(s[1..])
  }

  predicate Ascii(s: bytes) { forall i :: 0 <= i < |s| ==> s[i] < 128 }

  /** A placeholder at the start of a string: its name and its length. */
  datatype Match = Match(name: bytes, length: nat)

  /** The expression \$\{([a-zA-Z_][a-zA-Z0-9_-]*)\} at the start of `s`. */
  function VariableAt(s: bytes): (r: Option<Match>)
    ensures r.Some? ==> 1 <= r.value.length <= |s|
    ensures r.Some? ==> forall i :: 0 <= i < |r.value.name| ==> NameByte(r.value.name[i])
    ensures r.Some? ==> s[0] == B('$') && Ascii(s[..r.value.length])
  {
    if |s| < 4 || s[0] != B('$') || s[1] != B('{') || !NameStart(s[2]) then None
    else
      var n := NameRun(s[2..]);
      if 2 + n < |s| && s[2 + n] == B('}') then Some(Match(s[2..2 + n], 3 + n)) else None
  }

  const SECRETS: bytes := [B('$'), B('{'), B('s'), B('e'), B('c'), B('r'), B('e'), B('t'), B('s'), B('.')]

  /** The first closing brace, or the end. */
  function UntilBrace(s: bytes): (n: nat)
    ensures n <= |s|
    ensures n < |s| ==> s[n] == B('}')
    ensures B('}') !in s[..n]
  {
    if s == [] || s[0] == B('}') then 0 else 1 + UntilBrace(s[1..])
  }

  /** The expression \$\{secrets\.([^}]*)\} at the start of `s`. */
  function SecretAt(s: bytes): (r: Option<Match>)
    ensures r.Some? ==> 1 <= r.value.length <= |s|
  {
    if !(SECRETS <= s) then None
    else
      var k := |SECRETS|;
      var n := UntilBrace(s[k..]);
      if k + n == |s| then None else Some(Match(s[k..k + n], k + n + 1))
  }

  predicate IsName(name: bytes) {
    name != [] && NameStart(name[0]) && forall i :: 0 <= i < |name| ==> NameByte(name[i])
  }

  function Placeholder(name: bytes): bytes { [B('$'), B('{')] + name + [B('}')] }

  lemma NameRunIs(s: bytes, n: nat)
    requires n < |s| && (forall i :: 0 <= i < n ==> NameByte(s[i])) && !NameByte(s[n])
    ensures NameRun(s) == n
  {
    hide NameRun;
  }

  /** A variable is matched exactly where its placeholder stands. */
  lemma VariableIff(s: bytes, name: bytes)
    ensures VariableAt(s) == Some(Match(name, |name| + 3)) <==> IsName(name) && Placeholder(name) <= s
    ensures VariableAt(s).Some? ==> VariableAt(s).value.length == |VariableAt(s).value.name| + 3
  {
    if IsName(name) && Placeholder(name) <= s {
      var (p, rest) := (Placeholder(name), s[2..]);
      assert s[..|p|] == p;
      assert s[0] == s[..|p|][0] && s[1] == s[..|p|][1];
      assert s[2..2 + |name|] == p[2..2 + |name|] == name;
      forall i | 0 <= i < |name| ensures rest[i] == name[i] { assert rest[i] == s[2..2 + |name|][i]; }
      assert rest[|name|] == s[..|p|][2 + |name|] == B('}');
      NameRunIs(rest, |name|);
    }
    if VariableAt(s) == Some(Match(name, |name| + 3)) {
      assert s[..|name| + 3] == Placeholder(name);
    }
  }

  /** Where the classes of the expression begin and end. */
  lemma NameByteEdges()
    ensures NameStart(B('a')) && NameStart(B('z')) && NameStart(B('A')) && NameStart(B('Z')) && NameStart(B('_'))
    ensures !NameStart(B('`')) && !NameStart(B('{')) && !NameStart(B('@')) && !NameStart(B('[')) && !NameStart(B('0')) && !NameStart(B('-'))
    ensures NameByte(B('0')) && NameByte(B('9')) && NameByte(B('-')) && NameByte(B('m')) && NameByte(B('_'))
    ensures !NameByte(B('/')) && !NameByte(B(':')) && !NameByte(B('.')) && !NameByte(B('}')) && !NameByte(B('$'))
  {
  }

  /** A secret is matched exactly where its placeholder stands, up to the first brace. */
  lemma SecretIff(s: bytes, name: bytes)
    ensures SecretAt(s) == Some(Match(name, |name| + 11)) <==> B('}') !in name && SECRETS + name + [B('}')] <= s
    ensures SecretAt(s).Some? ==> SecretAt(s).value.length == |SecretAt(s).value.name| + 11
  {
    hide UntilBrace;
    var k := |SECRETS|;
    if B('}') !in name && SECRETS + name + [B('}')] <= s {
      var (p, rest) := (SECRETS + name + [B('}')], s[k..]);
      assert forall i :: 0 <= i < |p| ==> s[i] == p[i];
      assert rest[|name|] == B('}') && rest[..|name|] == name;
      BraceIs(rest, |name|);
      assert s[k..k + |name|] == name && SECRETS <= s;
    }
    if SecretAt(s) == Some(Match(name, |name| + 11)) {
      assert s[..|name| + 11] == SECRETS + name + [B('}')];
    }
  }

  lemma BraceIs(s: bytes, n: nat)
    requires n < |s| && s[n] == B('}') && B('}') !in s[..n]
    ensures UntilBrace(s) == n
  {
    hide UntilBrace;
    var m := UntilBrace(s);
    assert forall i :: 0 <= i < m ==> s[i] == s[..m][i] != B('}');
    assert forall i :: 0 <= i < n ==> s[i] == s[..n][i] != B('}');
  }

  ghost predicate Sane(at: bytes -> Option<Match>) {
    forall s :: at(s).Some? ==> 1 <= at(s).value.length <= |s|
  }

  /** What a template means: every leftmost placeholder replaced at once. */
  function Substitute(s: bytes, at: bytes -> Option<Match>, env: bytes -> bytes): (r: bytes)
    requires Sane(at)
    decreases |s|
  {
    if s == [] then []
    else
      match at(s)
      case Some(m) => env(m.name) + Substitute(s[m.length..], at, env)
      case None => [s[0]] + Substitute(s[1..], at, env)
  }

  /** A match found by FindAll: where it is and what it captured. */
  datatype Loc = Loc(start: nat, end: nat, name: bytes)

  /** FindAll: leftmost matches that do not overlap, from position `i` on. */
  function FindAll(s: bytes, at: bytes -> Option<Match>, i: nat): (r: seq<Loc>)
    requires Sane(at) && i <= |s|
    ensures Chain(r, i, |s|)
    decreases |s| - i
  {
    if i == |s| then []
    else
      match at(s[i..])
      case Some(m) =>
        var rest := FindAll(s, at, i + m.length);
        [Loc(i, i + m.length, m.name)] + rest
      case None =>
        var r := FindAll(s, at, i + 1);
        assert r != [] ==> Chain(r[1..], r[0].end, |s|);
        r
  }

  /** Matches in order, within `p` and `n`. */
  predicate Chain(locs: seq<Loc>, p: nat, n: nat) {
    p <= n && (locs != [] ==> p <= locs[0].start <= locs[0].end <= n && Chain(locs[1..], locs[0].end, n))
  }

  /** The template from `p` on, with the given matches replaced. */
  function Expand(s: bytes, p: nat, locs: seq<Loc>, env: bytes -> bytes): (r: bytes)
    requires Chain(locs, p, |s|)
    decreases |locs|
  {
    if locs == [] then s[p..]
    else s[p..locs[0].start] + env(locs[0].name) + Expand(s, locs[0].end, locs[1..], env)
  }

  lemma FindAllStep(s: bytes, at: bytes -> Option<Match>, i: nat)
    requires Sane(at) && i < |s|
    ensures FindAll(s, at, i) ==
      match at(s[i..])
      case Some(m) => [Loc(i, i + m.length, m.name)] + FindAll(s, at, i + m.length)
      case None => FindAll(s, at, i + 1)
  {
  }

  lemma SubstituteStep(s: bytes, at: bytes -> Option<Match>, i: nat, env: bytes -> bytes)
    requires Sane(at) && i < |s|
    ensures Substitute(s[i..], at, env) ==
      match at(s[i..])
      case Some(m) => env(m.name) + Substitute(s[i + m.length..], at, env)
      case None => [s[i]] + Substitute(s[i + 1..], at, env)
  {
    var t := s[i..];
    assert t[1..] == s[i + 1..];
    assert at(t).Some? ==> t[at(t).value.length..] == s[i + at(t).value.length..];
  }

  lemma NothingLeft(s: bytes, at: bytes -> Option<Match>, env: bytes -> bytes)
    requires Sane(at)
    ensures Expand(s, |s|, FindAll(s, at, |s|), env) == Substitute(s[|s|..], at, env)
  {
  }

  /** Replacing the matches found is substitution. */
  lemma {:induction false} FindAllSubstitutes(s: bytes, at: bytes -> Option<Match>, i: nat, env: bytes -> bytes)
    requires Sane(at) && i <= |s|
    ensures Expand(s, i, FindAll(s, at, i), env) == Substitute(s[i..], at, env)
    decreases |s| - i
  {
    hide Expand, FindAll, Substitute, Chain;
    if i == |s| {
      NothingLeft(s, at, env);
    } else {
      FindAllStep(s, at, i);
      SubstituteStep(s, at, i, env);
      match at(s[i..])
      case Some(m) =>
        FindAllSubstitutes(s, at, i + m.length, env);
        ExpandMatch(s, i, m, FindAll(s, at, i + m.length), env);
      case None =>
        FindAllSubstitutes(s, at, i + 1, env);
        ExpandEarlier(s, i, FindAll(s, at, i + 1), env);
    }
  }

  lemma Regroup(a: bytes, b: bytes, c: bytes, d: bytes)
    ensures a + (b + c + d) == a + b + c + d
  {
  }

  lemma ExpandNone(s: bytes, p: nat, env: bytes -> bytes)
    requires p <= |s|
    ensures Expand(s, p, [], env) == s[p..]
  {
  }

  lemma ExpandFirst(s: bytes, p: nat, locs: seq<Loc>, env: bytes -> bytes)
    requires locs != [] && Chain(locs, p, |s|)
    ensures Expand(s, p, locs, env) == s[p..locs[0].start] + env(locs[0].name) + Expand(s, locs[0].end, locs[1..], env)
  {
  }

  lemma ExpandMatch(s: bytes, i: nat, m: Match, rest: seq<Loc>, env: bytes -> bytes)
    requires i + m.length <= |s| && Chain(rest, i + m.length, |s|)
    ensures var locs := [Loc(i, i + m.length, m.name)] + rest;
      Chain(locs, i, |s|) && Expand(s, i, locs, env) == env(m.name) + Expand(s, i + m.length, rest, env)
  {
    var locs := [Loc(i, i + m.length, m.name)] + rest;
    assert locs[1..] == rest;
    assert s[i..i] + env(m.name) == env(m.name);
  }

  lemma ExpandEarlier(s: bytes, i: nat, locs: seq<Loc>, env: bytes -> bytes)
    requires i < |s| && Chain(locs, i + 1, |s|)
    ensures Chain(locs, i, |s|) && Expand(s, i, locs, env) == [s[i]] + Expand(s, i + 1, locs, env)
  {
    if locs != [] {
      var a, v, rest := locs[0].start, env(locs[0].name), Expand(s, locs[0].end, locs[1..], env);
      assert s[i..a] == [s[i]] + s[i + 1..a];
      assert [s[i]] + s[i + 1..a] + v + rest == [s[i]] + (s[i + 1..a] + v + rest);
    }
  }

  // ---- The JavaScript that is generated: string literals and lookups, added ----

  function HexValue(b: byte): Option<nat> {
    if B('0') <= b <= B('9') then Some(b - B('0'))
    else if B('a') <= b <= B('f') then Some(b - B('a') + 10)
    else if B('A') <= b <= B('F') then Some(b - B('A') + 10)
    else None
  }

  /** The code unit a string literal continues with and its length in the source
      text; section 12.9.4 of ECMA-262, without \u, octal and line continuations. */
  function LiteralUnit(s: bytes): (r: Option<(byte, nat)>)
    ensures r.Some? ==> 1 <= r.value.1 <= |s|
  {
    if s == [] || s[0] == B('\'') || s[0] == 10 || s[0] == 13 then None
    else if s[0] != B('\\') then Some((s[0], 1))
    else if |s| < 2 then None
    else if s[1] == B('n') then Some((10, 2))
    else if s[1] == B('r') then Some((13, 2))
    else if s[1] == B('t') then Some((9, 2))
    else if s[1] == B('b') then Some((8, 2))
    else if s[1] == B('v') then Some((11, 2))
    else if s[1] == B('f') then Some((12, 2))
    else if s[1] == B('x') then
      if |s| < 4 || HexValue(s[2]).None? || HexValue(s[3]).None? then None
      else
        var v: int := HexValue(s[2]).value * 16 + HexValue(s[3]).value;
        if v < 256 then Some((v, 4)) else None
    else if s[1] == B('u') || s[1] == 10 || s[1] == 13 || B('0') <= s[1] <= B('9') then None
    else Some((s[1], 2))
  }

  /** The rest of a literal after its opening quote: its value and its length,
      closing quote included. */
  function LiteralRest(s: bytes): (r: Option<(bytes, nat)>)
    ensures r.Some? ==> 1 <= r.value.1 <= |s|
    decreases |s|
  {
    if s != [] && s[0] == B('\'') then Some(([], 1))
    else
      match LiteralUnit(s)
      case None => None
      case Some((u, k)) =>
        match LiteralRest(s[k..])
        case None => None
        case Some((v, n)) => Some(([u] + v, k + n))
  }

  const VARS: bytes := [B('v'), B('a'), B('r'), B('s'), B('['), B('\'')]

  /** A literal or vars['name'] at the start of `s`: its value and its length. */
  function TermAt(s: bytes, env: bytes -> bytes): (r: Option<(bytes, nat)>)
    ensures r.Some? ==> 1 <= r.value.1 <= |s|
  {
    if s != [] && s[0] == B('\'') then
      match LiteralRest(s[1..])
      case None => None
      case Some((v, n)) => Some((v, 1 + n))
    else if VARS <= s then
      match LiteralRest(s[|VARS|..])
      case None => None
      case Some((name, n)) =>
        if |VARS| + n < |s| && s[|VARS| + n] == B(']') then Some((env(name), |VARS| + n + 1)) else None
    else None
  }

  /** The value of a sum of terms, which must be the whole text. */
  function Eval(s: bytes, env: bytes -> bytes): (r: Option<bytes>)
    decreases |s|
  {
    match TermAt(s, env)
    case None => None
    case Some((v, n)) =>
      if n == |s| then Some(v)
      else if s[n] != B('+') then None
      else
        match Eval(s[n + 1..], env)
        case None => None
        case Some(w) => Some(v + w)
  }

  // ---- Terms delimit themselves ----

  lemma LiteralUnitExtends(s: bytes, more: bytes)
    requires LiteralUnit(s).Some?
    ensures LiteralUnit(s + more) == LiteralUnit(s)
  {
  }

  lemma NoUnitAtEnd()
    ensures LiteralUnit([]).None?
  {
  }

  lemma {:induction false} LiteralRestExtends(s: bytes, more: bytes)
    requires LiteralRest(s).Some?
    ensures LiteralRest(s + more) == LiteralRest(s)
    decreases |s|
  {
    hide LiteralUnit;
    if s == [] {
      NoUnitAtEnd();
    } else if s[0] != B('\'') {
      LiteralUnitExtends(s, more);
      var k := LiteralUnit(s).value.1;
      assert (s + more)[k..] == s[k..] + more;
      LiteralRestExtends(s[k..], more);
    }
  }

  lemma TermExtends(s: bytes, more: bytes, env: bytes -> bytes)
    requires TermAt(s, env).Some?
    ensures TermAt(s + more, env) == TermAt(s, env)
  {
    if s[0] == B('\'') {
      assert (s + more)[1..] == s[1..] + more;
      LiteralRestExtends(s[1..], more);
    } else {
      assert (s + more)[|VARS|..] == s[|VARS|..] + more;
      LiteralRestExtends(s[|VARS|..], more);
    }
  }

  lemma EvalTerm(s: bytes, env: bytes -> bytes)
    requires TermAt(s, env).Some? && TermAt(s, env).value.1 == |s|
    ensures Eval(s, env) == Some(TermAt(s, env).value.0)
  {
  }

  lemma EvalSum(s: bytes, env: bytes -> bytes)
    requires TermAt(s, env).Some? && TermAt(s, env).value.1 < |s| && s[TermAt(s, env).value.1] == B('+')
    ensures var (v, n) := TermAt(s, env).value;
      var w := Eval(s[n + 1..], env);
      Eval(s, env) == if w.Some? then Some(v + w.value) else None
  {
  }

  lemma EvalStarts(s: bytes, env: bytes -> bytes)
    requires Eval(s, env).Some?
    ensures TermAt(s, env).Some?
    ensures TermAt(s, env).value.1 < |s| ==> s[TermAt(s, env).value.1] == B('+')
  {
  }

  /** A term added at the end adds its value. */
  lemma {:induction false} EvalPlus(s: bytes, t: bytes, env: bytes -> bytes)
    requires Eval(s, env).Some? && TermAt(t, env).Some? && TermAt(t, env).value.1 == |t|
    ensures Eval(s + [B('+')] + t, env) == Some(Eval(s, env).value + TermAt(t, env).value.0)
    decreases |s|
  {
    hide TermAt, Eval;
    EvalStarts(s, env);
    EvalTerm(t, env);
    var ((v, n), y) := (TermAt(s, env).value, TermAt(t, env).value.0);
    var all := s + [B('+')] + t;
    assert all == s + ([B('+')] + t);
    TermExtends(s, [B('+')] + t, env);
    EvalSum(all, env);
    if n == |s| {
      EvalTerm(s, env);
      assert all[n + 1..] == t;
    } else {
      EvalSum(s, env);
      var rest := s[n + 1..];
      assert all[n + 1..] == rest + [B('+')] + t;
      EvalPlus(rest, t, env);
      assert v + (Eval(rest, env).value + y) == v + Eval(rest, env).value + y;
    }
  }

  // ---- Escaping ----

  function HexDigit(v: nat): (r: byte)
    requires v < 16
    ensures HexValue(r) == Some(v)
  {
    if v < 10 then v + B('0') else v - 10 + B('a')
  }

  function Escape(b: byte): (r: bytes) {
    if b == B('\'') then [B('\\'), B('\'')]
    else if b == B('"') then [B('\\'), B('"')]
    else if b == B('\\') then [B('\\'), B('\\')]
    else if b == 10 then [B('\\'), B('n')]
    else if b == 13 then [B('\\'), B('r')]
    else if b == 9 then [B('\\'), B('t')]
    else if b < 32 || b > 126 then [B('\\'), B('x'), HexDigit(b / 16), HexDigit(b % 16)]
    else [b]
  }

  function EscapeAll(s: bytes): (r: bytes) {
    if s == [] then [] else EscapeAll(s[..|s| - 1]) + Escape(s[|s| - 1])
  }

  lemma EscapeReads(b: byte, more: bytes)
    ensures LiteralUnit(Escape(b) + more) == Some((b, |Escape(b)|))
  {
    var s := Escape(b) + more;
    assert |Escape(b)| > 1 ==> s[1] == Escape(b)[1];
    if |Escape(b)| == 4 {
      assert s[2] == HexDigit(b / 16) && s[3] == HexDigit(b % 16);
    }
  }

  lemma NotAQuote(s: bytes)
    requires LiteralUnit(s).Some?
    ensures s != [] && s[0] != B('\'')
  {
  }

  /** An escaped string is read back unchanged, whatever follows it. */
  lemma {:induction false} EscapeAllReads(s: bytes, tail: bytes)
    requires LiteralRest(tail).Some?
    ensures var (v, n) := LiteralRest(tail).value;
      LiteralRest(EscapeAll(s) + tail) == Some((s + v, |EscapeAll(s)| + n))
    decreases |s|
  {
    hide Escape, LiteralUnit, LiteralRest;
    var (v, n) := LiteralRest(tail).value;
    if s == [] {
      assert EscapeAll(s) + tail == tail && s + v == v;
    } else {
      var k := |s| - 1;
      var (before, last) := (EscapeAll(s[..k]), Escape(s[k]));
      OneEscapeReads(s[k], tail);
      EscapeAllReads(s[..k], last + tail);
      assert EscapeAll(s) == before + last;
      hide EscapeAll;
      assert (before + last) + tail == before + (last + tail);
      assert s[..k] + ([s[k]] + v) == s + v;
    }
  }

  lemma OneEscapeReads(b: byte, tail: bytes)
    requires LiteralRest(tail).Some?
    ensures var (v, n) := LiteralRest(tail).value; LiteralRest(Escape(b) + tail) == Some(([b] + v, |Escape(b)| + n))
  {
    hide Escape, LiteralUnit;
    EscapeReads(b, tail);
    assert (Escape(b) + tail)[|Escape(b)|..] == tail;
    NotAQuote(Escape(b) + tail);
  }

  function Quoted(s: bytes): bytes { [B('\'')] + EscapeAll(s) + [B('\'')] }

  lemma QuotedIsTerm(s: bytes, env: bytes -> bytes)
    ensures TermAt(Quoted(s), env) == Some((s, |Quoted(s)|))
  {
    hide LiteralUnit, EscapeAll;
    var close := [B('\'')];
    EscapeAllReads(s, close);
    assert Quoted(s)[1..] == EscapeAll(s) + close;
    assert s + [] == s;
  }

  function LookupOf(name: bytes): bytes { VARS + name + [B('\''), B(']')] }

  lemma {:induction false} NameReads(name: bytes, tail: bytes)
    requires forall i :: 0 <= i < |name| ==> NameByte(name[i])
    requires tail != [] && tail[0] == B('\'')
    ensures LiteralRest(name + tail) == Some((name, |name| + 1))
    decreases |name|
  {
    if name == [] {
      assert name + tail == tail;
    } else {
      var all := name + tail;
      assert all[1..] == name[1..] + tail && all[0] == name[0];
      assert LiteralUnit(all) == Some((name[0], 1));
      NameReads(name[1..], tail);
      assert [name[0]] + name[1..] == name;
    }
  }

  lemma LookupIsTerm(name: bytes, env: bytes -> bytes)
    requires forall i :: 0 <= i < |name| ==> NameByte(name[i])
    ensures TermAt(LookupOf(name), env) == Some((env(name), |LookupOf(name)|))
  {
    hide LiteralRest;
    var t, tail := LookupOf(name), [B('\''), B(']')];
    NameReads(name, tail);
    assert t[|VARS|..] == name + tail;
    assert t[0] == B('v') && t[|t| - 1] == B(']');
  }

  // ---- ToJavaScript ----

  /** The names captured by the variable expression need no escaping. */
  lemma {:induction false} NamesArePlain(s: bytes, i: nat)
    requires i <= |s|
    ensures forall k, j :: 0 <= k < |FindAll(s, VariableAt, i)| && 0 <= j < |FindAll(s, VariableAt, i)[k].name| ==>
      NameByte(FindAll(s, VariableAt, i)[k].name[j])
    decreases |s| - i
  {
    if i < |s| {
      match VariableAt(s[i..])
      case Some(m) => NamesArePlain(s, i + m.length);
      case None => NamesArePlain(s, i + 1);
    }
  }

  /** The builder's value so far: nothing written yet counts as empty. */
  function SoFar(js: bytes, env: bytes -> bytes): Option<bytes> {
    if js == [] then Some([]) else Eval(js, env)
  }

  /** js gets '+' between terms, and a term. */
  lemma TermWritten(js: bytes, t: bytes, v: bytes, env: bytes -> bytes)
    requires SoFar(js, env).Some? && TermAt(t, env) == Some((v, |t|))
    ensures SoFar((if js == [] then [] else js + [B('+')]) + t, env) == Some(SoFar(js, env).value + v)
  {
    if js == [] {
      assert [] + t == t && [] + v == v;
    } else {
      EvalPlus(js, t, env);
    }
  }

  method EscapeJavaScript(js: bytes, buf: bytes) returns (r: bytes)
    ensures r == js + EscapeAll(buf)
  {
    r := js;
    for i := 0 to |buf|
      invariant r == js + EscapeAll(buf[..i])
    {
      assert buf[..i + 1][..i] == buf[..i];
      r := r + Escape(buf[i]);
    }
    assert buf[..|buf|] == buf;
  }

  method WriteQuoted(js: bytes, buf: bytes) returns (r: bytes)
    ensures r == js + Quoted(buf)
  {
    r := js + [B('\'')];
    r := EscapeJavaScript(r, buf);
    r := r + [B('\'')];
  }

  /** Compiling a template preserves its meaning, for every environment: byte by
      byte always, and as text exactly when the template is ASCII. */
  method ToJavaScript(value: bytes) returns (js: bytes)
    ensures forall env :: Eval(js, env) == Some(Substitute(value, VariableAt, env))
    ensures forall env :: TemplateText(value, env).Some? ==> (Eval(js, env) == TemplateText(value, env) <==> Ascii(value))
  {
    if value == [] {
      js := [B('\''), B('\'')];
      forall env ensures Eval(js, env) == Some(Substitute(value, VariableAt, env)) {
        assert js == Quoted([]) && Substitute(value, VariableAt, env) == [];
        QuotedIsTerm([], env);
      }
    } else {
      js := WriteTemplate(value);
    }
    hide Eval, Substitute, TemplateText, VariableAt, Ascii;
    forall env | TemplateText(value, env).Some? ensures Eval(js, env) == TemplateText(value, env) <==> Ascii(value) {
      TemplatePreservedIff(value, js, env);
    }
  }

  method WriteTemplate(value: bytes) returns (js: bytes)
    requires value != []
    ensures forall env :: Eval(js, env) == Some(Substitute(value, VariableAt, env))
  {
    var locs := FindAll(value, VariableAt, 0);
    NamesArePlain(value, 0);
    var p: nat;
    js, p := WritePieces(value, locs);
    if value[p..] != [] {
      js := WriteLast(js, value[p..]);
    } else {
      forall env ensures SoFar(js, env).value + value[p..] == SoFar(js, env).value {
        assert value[p..] == [];
      }
    }
    forall env ensures Eval(js, env) == Some(Substitute(value, VariableAt, env)) {
      FindAllSubstitutes(value, VariableAt, 0, env);
      assert value[0..] == value;
    }
  }

  /** The loop over the matches. */
  method WritePieces(value: bytes, locs: seq<Loc>) returns (js: bytes, p: nat)
    requires Chain(locs, 0, |value|)
    requires forall k, j :: 0 <= k < |locs| && 0 <= j < |locs[k].name| ==> NameByte(locs[k].name[j])
    ensures p <= |value| && (js == [] ==> p == 0)
    ensures forall env :: SoFar(js, env).Some? && SoFar(js, env).value + value[p..] == Expand(value, 0, locs, env)
  {
    hide SoFar, Expand;
    js, p := [], 0;
    assert locs[0..] == locs;
    forall env ensures SoFar([], env) == Some([]) { EmptySoFar(env); }
    for i := 0 to |locs|
      invariant Chain(locs[i..], p, |value|) && (js == [] ==> p == 0)
      invariant forall env ::
        SoFar(js, env).Some? && SoFar(js, env).value + Expand(value, p, locs[i..], env) == Expand(value, 0, locs, env)
    {
      var loc := locs[i];
      assert locs[i..][1..] == locs[i + 1..];
      forall env ensures Expand(value, p, locs[i..], env)
          == value[p..loc.start] + env(loc.name) + Expand(value, loc.end, locs[i + 1..], env)
      {
        ExpandFirst(value, p, locs[i..], env);
      }
      js := WritePiece(js, value[p..loc.start], loc.name);
      p := loc.end;
    }
    assert locs[|locs|..] == [];
    forall env ensures Expand(value, p, [], env) == value[p..] { ExpandNone(value, p, env); }
  }

  lemma EmptySoFar(env: bytes -> bytes)
    ensures SoFar([], env) == Some([])
  {
  }

  /** What follows the last match. */
  method WriteLast(js: bytes, text: bytes) returns (r: bytes)
    requires forall env :: SoFar(js, env).Some?
    ensures r != [] && forall env :: SoFar(r, env) == Some(SoFar(js, env).value + text)
  {
    r := js;
    if r != [] {
      r := r + [B('+')];
    }
    r := WriteQuoted(r, text);
    forall env ensures SoFar(r, env) == Some(SoFar(js, env).value + text) {
      QuotedIsTerm(text, env);
      TermWritten(js, Quoted(text), text, env);
    }
  }

  /** One round of the loop: the text before a match, then the lookup. */
  method WritePiece(js: bytes, pre: bytes, name: bytes) returns (r: bytes)
    requires forall i :: 0 <= i < |name| ==> NameByte(name[i])
    requires forall env :: SoFar(js, env).Some?
    ensures r != [] && forall env :: SoFar(r, env) == Some(SoFar(js, env).value + pre + env(name))
  {
    r := js;
    if r != [] {
      r := r + [B('+')];
    }
    ghost var mid := js;
    if pre != [] {
      mid := r + Quoted(pre);
      r := WriteQuoted(r, pre);
      r := r + [B('+')];
    }
    r := r + LookupOf(name);
    forall env ensures SoFar(r, env) == Some(SoFar(js, env).value + pre + env(name)) {
      if pre != [] {
        QuotedIsTerm(pre, env);
        TermWritten(js, Quoted(pre), pre, env);
      } else {
        assert SoFar(js, env).value + [] == SoFar(js, env).value;
      }
      assert SoFar(mid, env) == Some(SoFar(js, env).value + pre);
      LookupIsTerm(name, env);
      TermWritten(mid, LookupOf(name), env(name), env);
    }
  }

  // ---- Text beyond ASCII ----

  predicate Continues(s: bytes, i: nat) { i < |s| && 128 <= s[i] < 192 }

  /** The first character: its UTF-16 code units and its length in UTF-8. Overlong
      forms, surrogates and points above 0x10FFFF are not UTF-8. */
  function FirstChar(s: bytes): (r: Option<(seq<nat>, nat)>)
    requires s != []
    ensures r.Some? ==> 1 <= r.value.1 <= |s|
    ensures r.Some? ==> if s[0] < 128 then r.value == ([s[0]], 1) else |r.value.0| < r.value.1
    ensures r.Some? && s[0] >= 128 ==> forall i :: 0 <= i < r.value.1 ==> s[i] >= 128
  {
    var lead: int := s[0];
    if lead < 128 then Some(([lead], 1))
    else if 194 <= lead < 224 && Continues(s, 1) then Some(([(lead - 192) * 64 + (s[1] as int - 128)], 2))
    else if 224 <= lead < 240 && Continues(s, 1) && Continues(s, 2) then
      var point := (lead - 224) * 4096 + (s[1] as int - 128) * 64 + (s[2] as int - 128);
      if point < 0x800 || 0xD800 <= point < 0xE000 then None else Some(([point], 3))
    else if 240 <= lead < 245 && Continues(s, 1) && Continues(s, 2) && Continues(s, 3) then
      var point := (lead - 240) * 262144 + (s[1] as int - 128) * 4096 + (s[2] as int - 128) * 64 + (s[3] as int - 128);
      if point < 0x10000 || point > 0x10FFFF then None
      else Some(([0xD800 + (point - 0x10000) / 1024, 0xDC00 + (point - 0x10000) % 1024], 4))
    else None
  }

  /** What a template should come out as: its placeholders replaced, and its other
      characters as UTF-16 code units. */
  function TemplateText(s: bytes, env: bytes -> bytes): (r: Option<seq<nat>>)
    decreases |s|
  {
    if s == [] then Some([])
    else
      match VariableAt(s)
      case Some(m) =>
        (match TemplateText(s[m.length..], env)
         case None => None
         case Some(more) => Some(env(m.name) + more))
      case None =>
        match FirstChar(s)
        case None => None
        case Some((units, size)) =>
          match TemplateText(s[size..], env)
          case None => None
          case Some(more) => Some(units + more)
  }

  /** No placeholder starts at a byte beyond ASCII. */
  lemma {:induction false} SubstitutePasses(s: bytes, k: nat, env: bytes -> bytes)
    requires k <= |s| && forall i :: 0 <= i < k ==> s[i] >= 128
    ensures Substitute(s, VariableAt, env) == s[..k] + Substitute(s[k..], VariableAt, env)
    decreases k
  {
    hide VariableAt;
    if k == 0 {
      assert s[0..] == s;
    } else {
      var (rest, after) := (s[1..], Substitute(s[k..], VariableAt, env));
      SubstitutePasses(rest, k - 1, env);
      assert rest[k - 1..] == s[k..];
      OneByte(s, env);
      assert [s[0]] + rest[..k - 1] == s[..k];
      Prepended(s[0], rest[..k - 1], after);
    }
  }

  lemma OneByte(s: bytes, env: bytes -> bytes)
    requires s != [] && s[0] >= 128
    ensures Substitute(s, VariableAt, env) == [s[0]] + Substitute(s[1..], VariableAt, env)
  {
    assert VariableAt(s).None?;
  }

  lemma Prepended(b: byte, a: bytes, c: bytes)
    ensures [b] + (a + c) == [b] + a + c
  {
  }

  lemma AsciiSplits(s: bytes, k: nat)
    requires k <= |s|
    ensures Ascii(s) <==> Ascii(s[..k]) && Ascii(s[k..])
  {
    assert s == s[..k] + s[k..];
  }

  lemma {:induction false} TemplateIsShorter(s: bytes, env: bytes -> bytes)
    requires TemplateText(s, env).Some?
    ensures var (text, bytewise) := (TemplateText(s, env).value, Substitute(s, VariableAt, env));
      if Ascii(s) then text == bytewise else |text| < |bytewise|
    decreases |s|
  {
    if s != [] {
      hide VariableAt, FirstChar;
      match VariableAt(s)
      case Some(m) =>
        TemplateIsShorter(s[m.length..], env);
        AsciiSplits(s, m.length);
      case None =>
        var (units, size) := FirstChar(s).value;
        TemplateIsShorter(s[size..], env);
        AsciiSplits(s, size);
        if s[0] >= 128 {
          SubstitutePasses(s, size, env);
          assert s[..size][0] >= 128;
        }
    }
  }

  /** For every template: the code ToJavaScript makes for it evaluates to what the
      template should come out as exactly when the template is ASCII. */
  lemma TemplatePreservedIff(value: bytes, js: bytes, env: bytes -> bytes)
    requires Eval(js, env) == Some(Substitute(value, VariableAt, env))
    requires TemplateText(value, env).Some?
    ensures Eval(js, env).value == TemplateText(value, env).value <==> Ascii(value)
  {
    TemplateIsShorter(value, env);
  }

  /** The two bytes of an e with an acute accent come out as two code units, not one. */
  lemma TemplateCanDiffer(env: bytes -> bytes)
    ensures var text: bytes := [195, 169];
      TemplateText(text, env) == Some([233]) && Substitute(text, VariableAt, env) == text
  {
    var text: bytes := [195, 169];
    var unit: seq<nat> := [233];
    assert VariableAt(text).None?;
    assert FirstChar(text) == Some((unit, 2)) && text[2..] == [];
    assert TemplateText([], env) == Some([]) && unit + [] == unit;
    SubstitutePasses(text, 2, env);
    assert text[..2] + [] == text;
  }

  // ---- Resolve ----

  predicate LowerOrDigit(b: byte) { B('a') <= b <= B('z') || B('0') <= b <= B('9') }

  /** A DNS subdomain name. */
  predicate IsValidSecretName(name: bytes) {
    && 0 < |name| <= 253
    && LowerOrDigit(name[0]) && LowerOrDigit(name[|name| - 1])
    && forall i :: 0 <= i < |name| ==> LowerOrDigit(name[i]) || name[i] == B('-') || name[i] == B('.')
  }

  /** Where the classes of a DNS subdomain name begin and end. */
  lemma SecretNameEdges()
    ensures IsValidSecretName([B('a')]) && IsValidSecretName([B('z'), B('-'), B('.'), B('0')]) && IsValidSecretName([B('9')])
    ensures !IsValidSecretName([]) && !IsValidSecretName([B('-'), B('a')]) && !IsValidSecretName([B('a'), B('.')])
    ensures !IsValidSecretName([B('A')]) && !IsValidSecretName([B('a'), B('_'), B('b')]) && !IsValidSecretName([B('`')])
    ensures IsValidSecretName(seq(253, _ => B('a'))) && !IsValidSecretName(seq(254, _ => B('a')))
  {
    assert [B('a'), B('_'), B('b')][1] == B('_');
  }

  datatype Resolved = Ok(text: bytes) | InvalidName(name: bytes) | ProviderFailed(name: bytes)

  /** The names of the placeholders, in order. */
  function Names(s: bytes): (r: seq<bytes>) {
    var locs := FindAll(s, SecretAt, 0);
    seq(|locs|, i requires 0 <= i < |locs| => locs[i].name)
  }

  predicate FirstOffender(names: seq<bytes>, name: bytes, ok: bytes -> bool) {
    exists i ::
      0 <= i < |names| && names[i] == name && !ok(name) && forall j :: 0 <= j < i ==> ok(names[j])
  }

  lemma Offends(names: seq<bytes>, i: nat, ok: bytes -> bool)
    requires i < |names| && !ok(names[i]) && forall j :: 0 <= j < i ==> ok(names[j])
    ensures FirstOffender(names, names[i], ok)
  {
  }

  /** Resolve with secrets enabled and no variable provider. It succeeds exactly
      when every name is valid and known, and then substitutes all of them at
      once: a secret's value is never scanned again. Names are validated before
      any secret is fetched, and the first offender is reported. */
  method Resolve(value: bytes, provider: bytes -> Option<bytes>) returns (r: Resolved)
    ensures r.Ok? <==> forall name :: name in Names(value) ==> IsValidSecretName(name) && provider(name).Some?
    ensures r.Ok? ==> r.text == Substitute(value, SecretAt, name => if provider(name).Some? then provider(name).value else [])
    ensures r.InvalidName? ==> FirstOffender(Names(value), r.name, IsValidSecretName)
    ensures r.ProviderFailed? ==> forall name :: name in Names(value) ==> IsValidSecretName(name)
    ensures r.ProviderFailed? ==> FirstOffender(Names(value), r.name, name => provider(name).Some?)
  {
    hide IsValidSecretName, SecretAt, FindAll, FirstOffender;
    var locs := FindAll(value, SecretAt, 0);
    var bad := CheckNames(Names(value));
    if bad.Some? {
      return InvalidName(bad.value);
    }
    ghost var env := name => if provider(name).Some? then provider(name).value else [];
    r := Assemble(value, locs, provider);
    FindAllSubstitutes(value, SecretAt, 0, env);
    assert value[0..] == value;
    forall name | name in Names(value) ensures exists i :: 0 <= i < |locs| && locs[i].name == name {
      var i :| 0 <= i < |Names(value)| && Names(value)[i] == name;
      assert locs[i].name == name;
    }
    forall i | 0 <= i < |locs| ensures locs[i].name in Names(value) {
      assert Names(value)[i] == locs[i].name;
    }
  }

  /** Step 1: the first name that is not valid, if there is one. */
  method CheckNames(names: seq<bytes>) returns (bad: Option<bytes>)
    ensures bad.None? <==> forall name :: name in names ==> IsValidSecretName(name)
    ensures bad.Some? ==> FirstOffender(names, bad.value, IsValidSecretName)
  {
    hide IsValidSecretName;
    for i := 0 to |names|
      invariant forall j :: 0 <= j < i ==> IsValidSecretName(names[j])
    {
      if !IsValidSecretName(names[i]) {
        return Some(names[i]);
      }
    }
    return None;
  }

  /** Step 2: the text between the placeholders, and their secrets. */
  method Assemble(value: bytes, locs: seq<Loc>, provider: bytes -> Option<bytes>) returns (r: Resolved)
    requires Chain(locs, 0, |value|)
    ensures !r.InvalidName?
    ensures r.Ok? <==> forall i :: 0 <= i < |locs| ==> provider(locs[i].name).Some?
    ensures r.Ok? ==> r.text == Expand(value, 0, locs, name => if provider(name).Some? then provider(name).value else [])
    ensures r.ProviderFailed? ==>
      FirstOffender(seq(|locs|, i requires 0 <= i < |locs| => locs[i].name), r.name, name => provider(name).Some?)
  {
    ghost var env := name => if provider(name).Some? then provider(name).value else [];
    ghost var names := seq(|locs|, i requires 0 <= i < |locs| => locs[i].name);
    hide Expand, FirstOffender;
    var text: bytes, lastPos: nat := [], 0;
    assert locs[0..] == locs;
    for i := 0 to |locs|
      invariant Chain(locs[i..], lastPos, |value|)
      invariant forall j :: 0 <= j < i ==> provider(locs[j].name).Some?
      invariant text + Expand(value, lastPos, locs[i..], env) == Expand(value, 0, locs, env)
    {
      var loc := locs[i];
      assert locs[i..][1..] == locs[i + 1..];
      var secret := provider(loc.name);
      if secret.None? {
        Offends(names, i, name => provider(name).Some?);
        return ProviderFailed(loc.name);
      }
      ExpandFirst(value, lastPos, locs[i..], env);
      ghost var rest := Expand(value, loc.end, locs[i + 1..], env);
      Regroup(text, value[lastPos..loc.start], secret.value, rest);
      text := text + value[lastPos..loc.start] + secret.value;
      lastPos := loc.end;
    }
    assert locs[|locs|..] == [];
    ExpandNone(value, lastPos, env);
    return Ok(text + value[lastPos..]);
  }
}

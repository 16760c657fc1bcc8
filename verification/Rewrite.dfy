/**
 The rewrite rules of `handler_dispatch` in src/http/handler.c: the first rule whose
 pattern matches replaces the path by its replacement with `$0` to `$9` expanded.
 What the pattern matched is an input.
 */
module Rewrite {
  import opened StringUtil

  const PATH_MAX := 1023

  /** A submatch: nothing, or a stretch of the path. */
  datatype Match = Unset | Group(so: nat, eo: nat)

  /** A rule with what `regexec` said about it. */
  datatype Rule = Rule(replacement: string, matched: Option<seq<Match>>)

  // ----- the meaning of a replacement -----

  datatype Token = Lit(c: char) | Ref(n: nat)

  function Tokens(s: string): (r: seq<Token>)
    ensures forall t | t in r :: t.Ref? ==> t.n < 10
  {
    if s == "" then []
    else if |s| > 1 && s[0] == '$' && '0' <= s[1] <= '9' then [Ref(s[1] as nat - '0' as nat)] + Tokens(s[2..])
    else [Lit(s[0])] + Tokens(s[1..])
  }

  /** The part of the path the pattern was matched against. */
  function Subject(path: string): string {
    CStr(if |path| < PATH_MAX then path else path[..PATH_MAX])
  }

  /** Ten submatches inside the subject. */
  predicate MatchesOk(subject: string, ms: seq<Match>) {
    |ms| == 10 && forall i | 0 <= i < 10 :: ms[i].Group? ==> ms[i].so <= ms[i].eo <= |subject|
  }

  predicate TokenOk(t: Token) {
    t.Ref? ==> t.n < 10
  }

  function Text(t: Token, subject: string, ms: seq<Match>): string
    requires TokenOk(t) && MatchesOk(subject, ms)
  {
    match t
    case Lit(c) => [c]
    case Ref(n) => if ms[n].Unset? then "" else subject[ms[n].so..ms[n].eo]
  }

  predicate TokensOk(ts: seq<Token>) {
    forall t | t in ts :: TokenOk(t)
  }

  /** The whole substitution, with no limit. */
  function Full(ts: seq<Token>, subject: string, ms: seq<Match>): string
    requires TokensOk(ts) && MatchesOk(subject, ms)
  {
    if ts == [] then "" else Text(ts[0], subject, ms) + Full(ts[1..], subject, ms)
  }

  // ----- the substitution into a fixed buffer -----

  /** What the loop produces after `out`: it stops when the buffer is full and drops a group that would fill it. */
  function Bounded(ts: seq<Token>, subject: string, ms: seq<Match>, out: string): string
    requires TokensOk(ts) && MatchesOk(subject, ms)
    decreases |ts|
  {
    if ts == [] || |out| >= PATH_MAX then out
    else
      var x := Text(ts[0], subject, ms);
      if ts[0].Lit? || |out| + |x| < PATH_MAX then Bounded(ts[1..], subject, ms, out + x)
      else Bounded(ts[1..], subject, ms, out)
  }

  /** The last token that contributes anything is a literal. */
  predicate EndsLiterally(ts: seq<Token>, subject: string, ms: seq<Match>)
    requires TokensOk(ts) && MatchesOk(subject, ms)
  {
    ts != [] && if Full(ts[1..], subject, ms) == "" then ts[0].Lit? else EndsLiterally(ts[1..], subject, ms)
  }

  lemma {:induction false} BoundedLength(ts: seq<Token>, subject: string, ms: seq<Match>, out: string)
    requires TokensOk(ts) && MatchesOk(subject, ms) && |out| <= PATH_MAX
    ensures var r := Bounded(ts, subject, ms, out);
            out <= r && |r| <= PATH_MAX && |r| <= |out| + |Full(ts, subject, ms)|
    decreases |ts|
  {
    if ts != [] && |out| < PATH_MAX {
      var x := Text(ts[0], subject, ms);
      if ts[0].Lit? || |out| + |x| < PATH_MAX {
        BoundedLength(ts[1..], subject, ms, out + x);
      } else {
        BoundedLength(ts[1..], subject, ms, out);
      }
    }
  }

  lemma {:induction false} BoundedExact(ts: seq<Token>, subject: string, ms: seq<Match>, out: string)
    requires TokensOk(ts) && MatchesOk(subject, ms) && |out| <= PATH_MAX
    ensures var f := Full(ts, subject, ms);
            Bounded(ts, subject, ms, out) == out + f
            <==> |out| + |f| < PATH_MAX || (|out| + |f| == PATH_MAX && (f == "" || EndsLiterally(ts, subject, ms)))
    decreases |ts|
  {
    if ts != [] && |out| < PATH_MAX {
      var x, rest := Text(ts[0], subject, ms), Full(ts[1..], subject, ms);
      assert out + (x + rest) == (out + x) + rest;
      if ts[0].Lit? || |out| + |x| < PATH_MAX {
        BoundedExact(ts[1..], subject, ms, out + x);
      } else {
        BoundedLength(ts[1..], subject, ms, out);
      }
    }
  }

  /**
   The rewritten path is the full substitution exactly when that is shorter than the
   buffer holds, or just fills it with a literal at the end; it is never longer.
   */
  lemma ExpansionExact(replacement: string, subject: string, ms: seq<Match>)
    requires MatchesOk(subject, ms)
    ensures var ts := Tokens(replacement);
            var f, r := Full(ts, subject, ms), Bounded(ts, subject, ms, "");
            && |r| <= PATH_MAX
            && (r == f <==> |f| < PATH_MAX || (|f| == PATH_MAX && EndsLiterally(ts, subject, ms)))
  {
    hide Bounded, Full, EndsLiterally;
    var ts := Tokens(replacement);
    BoundedExact(ts, subject, ms, "");
    BoundedLength(ts, subject, ms, "");
    assert "" + Full(ts, subject, ms) == Full(ts, subject, ms);
  }

  /** `$n` stands for the `n`-th group, `$0` for the whole match; an unset group stands for nothing. */
  lemma GroupExpands(n: nat, subject: string, ms: seq<Match>)
    requires n < 10 && MatchesOk(subject, ms)
    ensures var ts := Tokens(['$', '0' + n as char]);
            var x := if ms[n].Unset? then "" else subject[ms[n].so..ms[n].eo];
            Full(ts, subject, ms) == x && Bounded(ts, subject, ms, "") == if |x| < PATH_MAX then x else ""
  {
    var s := ['$', '0' + n as char];
    assert s[2..] == [];
    var ts := Tokens(s);
    assert ts == [Ref(n)] && ts[1..] == [];
    assert "" + Text(Ref(n), subject, ms) == Text(Ref(n), subject, ms);
  }

  /** Any other character stands for itself, also a dollar that no digit follows. */
  lemma LiteralExpands(c: char, subject: string, ms: seq<Match>)
    requires MatchesOk(subject, ms)
    ensures Full(Tokens([c]), subject, ms) == Bounded(Tokens([c]), subject, ms, "") == [c]
  {
    assert [c][1..] == [];
    var ts := Tokens([c]);
    assert ts == [Lit(c)] && ts[1..] == [];
  }

  /** A whole path of 1023 characters put for `$0` is lost altogether. */
  lemma GroupLost(subject: string, ms: seq<Match>)
    requires |subject| == PATH_MAX && MatchesOk(subject, ms) && ms[0] == Group(0, PATH_MAX)
    ensures Bounded(Tokens("$0"), subject, ms, "") == "" && Full(Tokens("$0"), subject, ms) == subject
  {
    assert "$0"[2..] == "";
    var ts := Tokens("$0");
    assert ts == [Ref(0)] && ts[1..] == [];
    assert subject[0..PATH_MAX] == subject;
  }

  lemma {:induction false} BoundedNulFree(ts: seq<Token>, subject: string, ms: seq<Match>, out: string)
    requires TokensOk(ts) && MatchesOk(subject, ms) && NulFree(subject) && NulFree(out)
    requires forall t | t in ts :: t.Lit? ==> t.c != '\0'
    ensures NulFree(Bounded(ts, subject, ms, out))
    decreases |ts|
  {
    if ts != [] && |out| < PATH_MAX {
      assert ts[0] in ts;
      var x := Text(ts[0], subject, ms);
      BoundedNulFree(ts[1..], subject, ms, out + x);
      BoundedNulFree(ts[1..], subject, ms, out);
    }
  }

  lemma {:induction false} TokensNulFree(s: string)
    requires NulFree(s)
    ensures forall t | t in Tokens(s) :: t.Lit? ==> t.c != '\0'
  {
    if s != "" {
      if |s| > 1 { TokensNulFree(s[2..]); }
      TokensNulFree(s[1..]);
    }
  }

  // ----- the loop -----

  /** One turn of the loop, in terms of tokens. */
  lemma TokensStep(s: string, i: nat)
    requires i < |s|
    ensures var ts := Tokens(s[i..]);
            if i + 1 < |s| && s[i] == '$' && '0' <= s[i + 1] <= '9'
            then ts == [Ref(s[i + 1] as nat - '0' as nat)] + Tokens(s[i + 2..])
            else ts == [Lit(s[i])] + Tokens(s[i + 1..])
  {
    if i + 1 < |s| { assert s[i..][2..] == s[i + 2..]; }
    assert s[i..][1..] == s[i + 1..];
  }

  /** `memcpy` to the destination position. */
  method Copy(buf: array<char>, dest: nat, x: string)
    requires dest + |x| <= buf.Length
    modifies buf
    ensures buf[..dest + |x|] == old(buf[..dest]) + x
  {
    forall k | 0 <= k < |x| { buf[dest + k] := x[k]; }
  }

  /** The expansion loop: a source position and a destination position in a 1024-byte buffer. */
  method ExpandLoop(replacement: string, subject: string, ms: seq<Match>, buf: array<char>) returns (dest: nat)
    requires MatchesOk(subject, ms) && buf.Length == PATH_MAX + 1
    modifies buf
    ensures dest <= PATH_MAX && buf[..dest] == Bounded(Tokens(replacement), subject, ms, "")
  {
    hide Tokens, Bounded;
    dest := 0;
    var src := 0;
    ghost var all := Bounded(Tokens(replacement), subject, ms, "");
    assert replacement[0..] == replacement && buf[..0] == "";
    while src < |replacement| && dest < PATH_MAX
      invariant 0 <= src <= |replacement| && 0 <= dest <= PATH_MAX
      invariant Bounded(Tokens(replacement[src..]), subject, ms, buf[..dest]) == all
      decreases |replacement| - src
    {
      TokensStep(replacement, src);
      if src + 1 < |replacement| && replacement[src] == '$' && '0' <= replacement[src + 1] <= '9' {
        var idx := replacement[src + 1] as nat - '0' as nat;
        StepRef(idx, Tokens(replacement[src + 2..]), subject, ms, buf[..dest]);
        if ms[idx].Group? {
          var len := ms[idx].eo - ms[idx].so;
          if len > 0 && dest + len < PATH_MAX {
            Copy(buf, dest, subject[ms[idx].so..ms[idx].eo]);
            dest := dest + len;
          }
        }
        src := src + 2;
      } else {
        StepLit(replacement[src], Tokens(replacement[src + 1..]), subject, ms, buf[..dest]);
        Copy(buf, dest, [replacement[src]]);
        dest := dest + 1;
        src := src + 1;
      }
    }
    if src == |replacement| { NoTokens(replacement); }
    Stopped(Tokens(replacement[src..]), subject, ms, buf[..dest]);
  }

  /** The new path: what the loop left, up to the terminator. */
  method Expand(replacement: string, subject: string, ms: seq<Match>) returns (path: string)
    requires MatchesOk(subject, ms) && NulFree(replacement) && NulFree(subject)
    ensures path == Bounded(Tokens(replacement), subject, ms, "")
  {
    hide Tokens, Bounded;
    var buf := new char[PATH_MAX + 1](_ => '\0');
    var dest := ExpandLoop(replacement, subject, ms, buf);
    ghost var out := buf[..dest];
    buf[dest] := '\0';
    assert buf[..dest] == out;
    TokensNulFree(replacement);
    BoundedNulFree(Tokens(replacement), subject, ms, "");
    CStrId(out);
    path := CStr(buf[..dest]);
  }

  lemma NoTokens(s: string)
    ensures Tokens(s[|s|..]) == []
  {
  }

  lemma StepLit(c: char, ts: seq<Token>, subject: string, ms: seq<Match>, out: string)
    requires TokensOk(ts) && MatchesOk(subject, ms) && |out| < PATH_MAX
    ensures Bounded([Lit(c)] + ts, subject, ms, out) == Bounded(ts, subject, ms, out + [c])
  {
    assert ([Lit(c)] + ts)[1..] == ts;
  }

  lemma StepRef(n: nat, ts: seq<Token>, subject: string, ms: seq<Match>, out: string)
    requires n < 10 && TokensOk(ts) && MatchesOk(subject, ms) && |out| < PATH_MAX
    ensures var x := Text(Ref(n), subject, ms);
            Bounded([Ref(n)] + ts, subject, ms, out) ==
            Bounded(ts, subject, ms, if x != "" && |out| + |x| < PATH_MAX then out + x else out)
  {
    assert ([Ref(n)] + ts)[1..] == ts;
    assert out + "" == out;
  }

  lemma Stopped(ts: seq<Token>, subject: string, ms: seq<Match>, out: string)
    requires TokensOk(ts) && MatchesOk(subject, ms)
    ensures ts == [] || |out| >= PATH_MAX ==> Bounded(ts, subject, ms, out) == out
  {
  }

  // ----- the rules -----

  predicate RuleOk(r: Rule, subject: string) {
    NulFree(r.replacement) && (r.matched.Some? ==> MatchesOk(subject, r.matched.value))
  }

  predicate RulesOk(rules: seq<Rule>, subject: string) {
    forall r | r in rules :: RuleOk(r, subject)
  }

  /** The path after the rules; `memory` tells whether the arena has room for the new one. */
  function Rewritten(path: string, rules: seq<Rule>, memory: bool): string
    requires RulesOk(rules, Subject(path))
  {
    if rules == [] then path
    else
      var r := rules[0];
      assert RuleOk(r, Subject(path));
      if r.matched.None? then Rewritten(path, rules[1..], memory)
      else if !memory then path
      else Bounded(Tokens(r.replacement), Subject(path), r.matched.value, "")
  }

  /** The rule loop, which leaves at the first match. */
  method ApplyRules(path: string, rules: seq<Rule>, memory: bool) returns (r: string)
    requires RulesOk(rules, Subject(path))
    ensures r == Rewritten(path, rules, memory)
  {
    hide Bounded, Tokens, Subject, RuleOk, MatchesOk;
    var i := 0;
    while i < |rules|
      invariant 0 <= i <= |rules| && RulesOk(rules[i..], Subject(path))
      invariant Rewritten(path, rules, memory) == Rewritten(path, rules[i..], memory)
    {
      var rule := rules[i];
      assert rules[i..][0] == rule && rules[i..][1..] == rules[i + 1..];
      if rule.matched.Some? {
        RuleParts(rule, path);
        var expanded := Expand(rule.replacement, Subject(path), rule.matched.value);
        return if memory then expanded else path;
      }
      i := i + 1;
    }
    return path;
  }

  lemma RuleParts(rule: Rule, path: string)
    requires RuleOk(rule, Subject(path)) && rule.matched.Some?
    ensures MatchesOk(Subject(path), rule.matched.value) && NulFree(rule.replacement) && NulFree(Subject(path))
  {
  }

  /** Rules after the first match have no say, and rules before it that did not match have none either. */
  lemma {:induction false} FirstMatchDecides(
    path: string, before: seq<Rule>, rule: Rule, after: seq<Rule>, memory: bool)
    requires RulesOk(before + [rule] + after, Subject(path)) && RuleOk(rule, Subject(path)) && rule.matched.Some?
    requires forall r | r in before :: r.matched.None?
    ensures Rewritten(path, before + [rule] + after, memory) ==
            if memory then Bounded(Tokens(rule.replacement), Subject(path), rule.matched.value, "") else path
    decreases |before|
  {
    hide Bounded, Tokens, Subject, RuleOk;
    var all := before + [rule] + after;
    if before == [] {
      assert all[0] == rule;
    } else {
      assert all[0] == before[0] && all[1..] == before[1..] + [rule] + after;
      FirstMatchDecides(path, before[1..], rule, after, memory);
    }
  }
}

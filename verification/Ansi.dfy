/** The two scanners that take colour codes out of a log line: the regular expression of the
    command-line client (examples/sse_server/sse-client.py) and that of the page
    (src/builtin_sse_server/www/index.html). Control sequences are those of ECMA-48, section 5.4. */
module Ansi {
  import opened EventStream

  const ESC: char := '\U{1B}'

  predicate IsParameter(c: char) { '0' <= c <= '?' }
  predicate IsIntermediate(c: char) { ' ' <= c <= '/' }
  predicate IsFinal(c: char) { '@' <= c <= '~' }
  predicate IsC1(c: char) { '\U{80}' <= c <= '\U{9F}' }

  /** Length of a sequence introducer at the start of s, or 0. */
  function Introducer(s: string): (k: nat)
    ensures k <= |s|
  {
    if |s| >= 2 && s[0] == ESC && '@' <= s[1] <= '_' then 2
    else if s != "" && IsC1(s[0]) then 1
    else 0
  }

  /** n characters: the introducer, parameters up to p, intermediates, and a final byte. */
  ghost predicate Parts(s: string, p: nat, n: nat) {
    && 0 < Introducer(s) <= p < n <= |s|
    && (forall k :: Introducer(s) <= k < p ==> IsParameter(s[k]))
    && (forall k :: p <= k < n - 1 ==> IsIntermediate(s[k]))
    && IsFinal(s[n - 1])
  }

  /** What the expression of the command-line client means: s starts with a match of n characters. */
  ghost predicate Matches(s: string, n: nat) {
    exists p :: Parts(s, p, n)
  }

  function SkipParameters(s: string, k: nat): (p: nat)
    requires k <= |s|
    ensures k <= p <= |s| && (p < |s| ==> !IsParameter(s[p]))
    ensures forall j :: k <= j < p ==> IsParameter(s[j])
    decreases |s| - k
  {
    if k < |s| && IsParameter(s[k]) then SkipParameters(s, k + 1) else k
  }

  function SkipIntermediates(s: string, k: nat): (q: nat)
    requires k <= |s|
    ensures k <= q <= |s| && (q < |s| ==> !IsIntermediate(s[q]))
    ensures forall j :: k <= j < q ==> IsIntermediate(s[j])
    decreases |s| - k
  {
    if k < |s| && IsIntermediate(s[k]) then SkipIntermediates(s, k + 1) else k
  }

  /** One greedy scan without backtracking; 0 when there is no match. */
  function MatchLength(s: string): (n: nat)
    ensures n <= |s|
  {
    var k := Introducer(s);
    if k == 0 then 0
    else
      var q := SkipIntermediates(s, SkipParameters(s, k));
      if q < |s| && IsFinal(s[q]) then q + 1 else 0
  }

  /** Because the three byte classes are disjoint, the greedy scan finds a match whenever there is
      one, and there is only one. */
  lemma GreedyScanIsTheMatch(s: string, n: nat)
    ensures Matches(s, n) <==> n > 0 && n == MatchLength(s)
  {
    hide Introducer;
    var p0 := SkipParameters(s, Introducer(s));
    var q0 := SkipIntermediates(s, p0);
    assert n > 0 && n == MatchLength(s) ==> Parts(s, p0, n);
    if Matches(s, n) {
      var p: nat :| Parts(s, p, n);
      assert !IsParameter(s[p]) by { assert p < n - 1 ==> IsIntermediate(s[p]); }
      assert p0 == p;
      assert q0 == n - 1;
    }
  }

  /** re.sub with an empty replacement: leftmost matches, one after the other. */
  function StripPython(s: string): string
    decreases |s|
  {
    if s == "" then ""
    else
      var n := MatchLength(s);
      if n > 0 then StripPython(s[n..]) else [s[0]] + StripPython(s[1..])
  }

  ghost predicate StartsMatch(s: string) {
    exists n :: Matches(s, n)
  }

  lemma StartsMatchIff(s: string)
    ensures StartsMatch(s) <==> MatchLength(s) > 0
  {
    if StartsMatch(s) {
      var n :| Matches(s, n);
      GreedyScanIsTheMatch(s, n);
    }
    GreedyScanIsTheMatch(s, MatchLength(s));
  }

  /** No match starts at one of the first i characters. */
  ghost predicate NoMatchBefore(s: string, i: nat)
    requires i <= |s|
  {
    forall j :: 0 <= j < i ==> !StartsMatch(s[j..])
  }

  lemma NoMatchBehind(s: string, i: nat)
    requires 0 < i <= |s| && NoMatchBefore(s, i)
    ensures MatchLength(s) == 0 && NoMatchBefore(s[1..], i - 1)
  {
    assert s[0..] == s && !StartsMatch(s[0..]);
    StartsMatchIff(s);
    hide StartsMatch, MatchLength;
    forall j | 0 <= j < i - 1 ensures !StartsMatch(s[1..][j..]) {
      assert s[1..][j..] == s[j + 1..];
    }
  }

  /** The replacement takes out the leftmost match of the expression and goes on behind it. */
  lemma {:induction false} RemovesLeftmost(s: string, i: nat, n: nat)
    requires i <= |s| && NoMatchBefore(s, i) && Matches(s[i..], n)
    ensures i + n <= |s| && StripPython(s) == s[..i] + StripPython(s[i + n..])
    decreases i
  {
    hide Matches, MatchLength, NoMatchBefore;
    GreedyScanIsTheMatch(s[i..], n);
    if i == 0 {
      assert s[0..] == s;
    } else {
      NoMatchBehind(s, i);
      assert s[1..][i - 1..] == s[i..];
      RemovesLeftmost(s[1..], i - 1, n);
      assert StripPython(s) == [s[0]] + StripPython(s[1..]);
      assert s[..i] == [s[0]] + s[1..][..i - 1];
      assert s[1..][i - 1 + n..] == s[i + n..];
    }
  }

  /** Without a match anywhere nothing is replaced. */
  lemma {:induction false} KeepsWithoutMatch(s: string)
    requires NoMatchBefore(s, |s|)
    ensures StripPython(s) == s
    decreases |s|
  {
    hide MatchLength, NoMatchBefore;
    if s == "" {
    } else {
      NoMatchBehind(s, |s|);
      KeepsWithoutMatch(s[1..]);
      assert s == [s[0]] + s[1..];
    }
  }

  // ---------------------------------------------------------------- the page

  /** The page's expression: an ESC up to the first 'm' behind it. */
  function StripPage(s: string): string
    decreases |s|
  {
    if s == "" then ""
    else if s[0] == ESC && IndexOf(s, 'm') < |s| then StripPage(s[IndexOf(s, 'm') + 1..])
    else [s[0]] + StripPage(s[1..])
  }

  ghost predicate NoSequenceLeft(s: string) {
    forall i, j :: 0 <= i < j < |s| && s[i] == ESC ==> s[j] != 'm'
  }

  lemma {:induction false} StripPageChars(s: string)
    ensures forall c :: c in StripPage(s) ==> c in s
    decreases |s|
  {
    if s == "" {
    } else if s[0] == ESC && IndexOf(s, 'm') < |s| {
      StripPageChars(s[IndexOf(s, 'm') + 1..]);
    } else {
      StripPageChars(s[1..]);
    }
  }

  /** After the replacement no ESC has an 'm' behind it. */
  lemma {:induction false} PageLeavesNoSequence(s: string)
    ensures NoSequenceLeft(StripPage(s))
    decreases |s|
  {
    if s == "" {
    } else if s[0] == ESC && IndexOf(s, 'm') < |s| {
      PageLeavesNoSequence(s[IndexOf(s, 'm') + 1..]);
    } else {
      PageLeavesNoSequence(s[1..]);
      StripPageChars(s[1..]);
      var t := StripPage(s[1..]);
      if s[0] == ESC {
        forall j | 0 <= j < |t| ensures t[j] != 'm' {
          assert t[j] in s[1..];
        }
      }
    }
  }

  lemma {:induction false} NothingToStrip(s: string)
    requires NoSequenceLeft(s)
    ensures StripPage(s) == s
    decreases |s|
  {
    if s == "" {
    } else {
      assert s == [s[0]] + s[1..];
      NothingToStrip(s[1..]);
    }
  }

  lemma PageIsIdempotent(s: string)
    ensures StripPage(StripPage(s)) == StripPage(s)
  {
    PageLeavesNoSequence(s);
    NothingToStrip(StripPage(s));
  }

  /** The command-line client's replacement is not idempotent: what surrounds a removed sequence can
      form a new one. */
  lemma PythonIsNotIdempotent()
    ensures var s := [ESC, ESC, '[', 'm', '[', 'm'];
            StripPython(s) == [ESC, '[', 'm'] && StripPython(StripPython(s)) == ""
  {
    var s := [ESC, ESC, '[', 'm', '[', 'm'];
    assert MatchLength(s) == 0;
    assert s[1..] == [ESC, '[', 'm', '[', 'm'];
    assert SkipParameters(s[1..], 2) == 2 && MatchLength(s[1..]) == 3;
    assert s[1..][3..] == ['[', 'm'];
    assert ['[', 'm'][1..] == ['m'] && ['m'][1..] == "";
    assert StripPython(['m']) == ['m'] && StripPython(['[', 'm']) == ['[', 'm'];
    var t := [ESC, '[', 'm'];
    assert StripPython(s) == [ESC] + ['[', 'm'] == t;
    assert SkipParameters(t, 2) == 2 && MatchLength(t) == 3 && t[3..] == "";
  }

  // ---------------------------------------------------------------- what the client's replacement leaves

  predicate IsControl(c: char) { c == ESC || IsC1(c) }

  /** The scan meets an ESC or a C1 at which no sequence starts. */
  predicate Stray(s: string)
    decreases |s|
  {
    s != "" &&
    var n := MatchLength(s);
    if n > 0 then Stray(s[n..]) else IsControl(s[0]) || Stray(s[1..])
  }

  /** Exactly then a control character is left in the line. */
  lemma {:induction false} ControlLeftIff(s: string)
    ensures (exists c :: c in StripPython(s) && IsControl(c)) <==> Stray(s)
    decreases |s|
  {
    hide MatchLength;
    if s == "" {
    } else if MatchLength(s) > 0 {
      ControlLeftIff(s[MatchLength(s)..]);
    } else {
      ControlLeftIff(s[1..]);
      var rest := StripPython(s[1..]);
      assert StripPython(s) == [s[0]] + rest;
      assert forall c :: c in StripPython(s) <==> c == s[0] || c in rest;
    }
  }

  /** How far a sequence has got: nowhere, behind its ESC, in its parameters, in its intermediate
      bytes, or to its end. */
  datatype Progress = Outside | Escaped | Parameters | Intermediates | Complete

  function Begin(c: char): Progress {
    if c == ESC then Escaped else if IsC1(c) then Parameters else Outside
  }

  function Advance(q: Progress, c: char): Progress {
    match q
    case Outside => Begin(c)
    case Escaped => if '@' <= c <= '_' then Parameters else Begin(c)
    case Parameters =>
      if IsParameter(c) then Parameters else if IsIntermediate(c) then Intermediates
      else if IsFinal(c) then Complete else Begin(c)
    case Intermediates => if IsIntermediate(c) then Intermediates else if IsFinal(c) then Complete else Begin(c)
    case Complete => Complete
  }

  /** One pass over a line: do the characters the replacement keeps, read one after the other, come
      to the end of a sequence? */
  predicate Joins(s: string, q: Progress)
    decreases |s|
  {
    if s == "" then q == Complete
    else
      var n := MatchLength(s);
      if n > 0 then Joins(s[n..], q) else Joins(s[1..], Advance(q, s[0]))
  }

  /** The same of a line nothing is taken out of. */
  predicate Reaches(t: string, q: Progress)
    decreases |t|
  {
    if t == "" then q == Complete else Reaches(t[1..], Advance(q, t[0]))
  }

  lemma {:induction false} JoinsIsReaches(s: string, q: Progress)
    ensures Joins(s, q) <==> Reaches(StripPython(s), q)
    decreases |s|
  {
    hide MatchLength, Advance;
    if s == "" {
    } else if MatchLength(s) > 0 {
      JoinsIsReaches(s[MatchLength(s)..], q);
    } else {
      JoinsIsReaches(s[1..], Advance(q, s[0]));
      var t := StripPython(s);
      assert t == [s[0]] + StripPython(s[1..]) && t[1..] == StripPython(s[1..]);
    }
  }

  lemma {:induction false} CompleteStays(t: string)
    ensures Reaches(t, Complete)
    decreases |t|
  {
    if t != "" {
      CompleteStays(t[1..]);
    }
  }

  /** The start of t completes a sequence that has got as far as q. */
  predicate Completes(t: string, q: Progress)
    decreases |t|
  {
    match q
    case Outside => false
    case Escaped => t != "" && '@' <= t[0] <= '_' && Completes(t[1..], Parameters)
    case Parameters => var e := SkipIntermediates(t, SkipParameters(t, 0)); e < |t| && IsFinal(t[e])
    case Intermediates => var e := SkipIntermediates(t, 0); e < |t| && IsFinal(t[e])
    case Complete => true
  }

  lemma {:induction false} ShiftIntermediates(s: string, k: nat, d: nat)
    requires d <= k <= |s|
    ensures SkipIntermediates(s, k) == d + SkipIntermediates(s[d..], k - d)
    decreases |s| - k
  {
    if k < |s| && IsIntermediate(s[k]) {
      ShiftIntermediates(s, k + 1, d);
    }
  }

  lemma {:induction false} ShiftParameters(s: string, k: nat, d: nat)
    requires d <= k <= |s|
    ensures SkipParameters(s, k) == d + SkipParameters(s[d..], k - d)
    decreases |s| - k
  {
    if k < |s| && IsParameter(s[k]) {
      ShiftParameters(s, k + 1, d);
    }
  }

  /** Scanning from position d on is scanning what stands there. */
  lemma ShiftBoth(s: string, d: nat)
    requires d <= |s|
    ensures SkipIntermediates(s, SkipParameters(s, d)) == d + SkipIntermediates(s[d..], SkipParameters(s[d..], 0))
    ensures SkipIntermediates(s, d) == d + SkipIntermediates(s[d..], 0)
  {
    ShiftParameters(s, d, d);
    ShiftIntermediates(s, SkipParameters(s, d), d);
    ShiftIntermediates(s, d, d);
  }

  lemma MatchCompletes(s: string)
    requires s != ""
    ensures MatchLength(s) > 0 <==> Completes(s[1..], Begin(s[0]))
  {
    if s[0] == ESC && |s| >= 2 && '@' <= s[1] <= '_' {
      CompletesFrom(s, 2);
      assert s[1..][1..] == s[2..];
    } else if IsC1(s[0]) {
      CompletesFrom(s, 1);
    }
  }

  lemma CompletesFrom(s: string, k: nat)
    requires k <= |s|
    ensures var e := SkipIntermediates(s, SkipParameters(s, k));
            (e < |s| && IsFinal(s[e])) <==> Completes(s[k..], Parameters)
  {
    ShiftBoth(s, k);
    hide SkipIntermediates, SkipParameters;
  }

  lemma AdvanceCompletes(t: string, q: Progress)
    requires t != "" && q != Complete
    ensures Completes(t[1..], Advance(q, t[0])) <==> Completes(t, q) || Completes(t[1..], Begin(t[0]))
  {
    ShiftBoth(t, 1);
    assert SkipParameters(t, 0) == if IsParameter(t[0]) then SkipParameters(t, 1) else 0;
    assert SkipIntermediates(t, 0) == if IsIntermediate(t[0]) then SkipIntermediates(t, 1) else 0;
  }

  lemma MatchAt(t: string)
    requires t != ""
    ensures !NoMatchBefore(t, |t|) <==> MatchLength(t) > 0 || !NoMatchBefore(t[1..], |t| - 1)
  {
    StartsMatchIff(t);
    hide StartsMatch, MatchLength;
    assert t[0..] == t;
    forall j | 0 <= j < |t| - 1 ensures t[1..][j..] == t[j + 1..] {
    }
    forall j | 0 < j < |t| ensures t[j..] == t[1..][j - 1..] {
    }
  }

  /** The scan comes to the end of a sequence if and only if one under way is completed or one is
      found. */
  lemma {:induction false} ReachesIff(t: string, q: Progress)
    ensures Reaches(t, q) <==> Completes(t, q) || !NoMatchBefore(t, |t|)
    decreases |t|
  {
    if q == Complete {
      CompleteStays(t);
    } else if t == "" {
    } else {
      hide NoMatchBefore, MatchLength, Completes, Advance;
      ReachesIff(t[1..], Advance(q, t[0]));
      MatchAt(t);
      MatchCompletes(t);
      AdvanceCompletes(t, q);
    }
  }

  lemma {:induction false} MatchShortens(s: string)
    ensures |StripPython(s)| <= |s| && (!NoMatchBefore(s, |s|) ==> |StripPython(s)| < |s|)
    decreases |s|
  {
    hide MatchLength, NoMatchBefore;
    if s == "" {
      assert NoMatchBefore("", 0) by { NoMatchInNothing(); }
    } else {
      MatchAt(s);
      if MatchLength(s) > 0 {
        MatchShortens(s[MatchLength(s)..]);
      } else {
        MatchShortens(s[1..]);
      }
    }
  }

  lemma NoMatchInNothing()
    ensures NoMatchBefore("", 0)
  {
  }

  /** Removing the sequences once is enough if and only if the characters that are kept do not join
      to a new sequence. */
  lemma PythonIsIdempotentIff(s: string)
    ensures StripPython(StripPython(s)) == StripPython(s) <==> !Joins(s, Outside)
  {
    hide StripPython, Joins, NoMatchBefore;
    var t := StripPython(s);
    JoinsIsReaches(s, Outside);
    ReachesIff(t, Outside);
    MatchShortens(t);
    if NoMatchBefore(t, |t|) {
      KeepsWithoutMatch(t);
    }
  }

  /** In particular it is enough on every line without stray control characters. */
  lemma {:induction false} JoinsNeedsStray(s: string)
    requires Joins(s, Outside)
    ensures Stray(s)
    decreases |s|
  {
    hide MatchLength;
    if MatchLength(s) > 0 {
      JoinsNeedsStray(s[MatchLength(s)..]);
    } else if !IsControl(s[0]) {
      JoinsNeedsStray(s[1..]);
    }
  }

  // ---------------------------------------------------------------- lines put together

  /** What follows does not change a match, and only a match or a control character needs care. */
  lemma MatchConcat(p: string, r: string)
    requires p != ""
    ensures MatchLength(p) > 0 ==> MatchLength(p + r) == MatchLength(p)
    ensures !IsControl(p[0]) ==> MatchLength(p + r) == 0
  {
    var n := MatchLength(p);
    if n > 0 {
      GreedyScanIsTheMatch(p, n);
      var m: nat :| Parts(p, m, n);
      assert Parts(p + r, m, n);
      GreedyScanIsTheMatch(p + r, n);
    }
  }

  lemma MatchPrefix(s: string)
    requires MatchLength(s) > 0
    ensures MatchLength(s[..MatchLength(s)]) == MatchLength(s) && IsFinal(s[MatchLength(s) - 1])
  {
    var n := MatchLength(s);
    GreedyScanIsTheMatch(s, n);
    var m: nat :| Parts(s, m, n);
    assert Parts(s[..n], m, n);
    GreedyScanIsTheMatch(s[..n], n);
  }

  /** The sequences of a line without stray control characters are its own: whatever follows is
      scanned by itself. */
  lemma {:induction false} StripConcat(p: string, r: string)
    requires !Stray(p)
    ensures StripPython(p + r) == StripPython(p) + StripPython(r)
    ensures Stray(p + r) <==> Stray(r)
    decreases |p|
  {
    hide MatchLength;
    if p == "" {
      assert p + r == r;
    } else {
      MatchConcat(p, r);
      var n := if MatchLength(p) > 0 then MatchLength(p) else 1;
      assert (p + r)[n..] == p[n..] + r;
      StripConcat(p[n..], r);
      assert StripPython(p) == p[..if MatchLength(p) > 0 then 0 else 1] + StripPython(p[n..]);
    }
  }

  /** A last character that ends no sequence can be taken off. */
  lemma {:induction false} LastOutside(u: string)
    requires u != "" && !Stray(u) && !IsFinal(u[|u| - 1])
    ensures !Stray(u[..|u| - 1]) && StripPython(u) == StripPython(u[..|u| - 1]) + [u[|u| - 1]]
    decreases |u|
  {
    hide MatchLength, IsFinal;
    var v, n := u[..|u| - 1], MatchLength(u);
    if n > 0 {
      MatchPrefix(u);
      MatchConcat(u[..n], u[n..|u| - 1]);
      assert v == u[..n] + u[n..|u| - 1] && v[n..] == u[n..][..|u[n..]| - 1];
      LastOutside(u[n..]);
    } else if |u| > 1 {
      MatchConcat([u[0]], v[1..]);
      assert v == [u[0]] + v[1..] && v[1..] == u[1..][..|u[1..]| - 1];
      LastOutside(u[1..]);
    } else {
      assert v == "" && u[1..] == "";
    }
  }

  // ---------------------------------------------------------------- coloured log lines

  /** A character of text, or a colour sequence ESC [ digits and semicolons m. */
  datatype Piece = Plain(c: char) | Colour(parameters: string)

  predicate WellFormed(p: Piece) {
    match p
    case Plain(c) => c != ESC && !IsC1(c)
    case Colour(parameters) => forall k :: 0 <= k < |parameters| ==> '0' <= parameters[k] <= '9' || parameters[k] == ';'
  }

  function RenderPiece(p: Piece): string {
    match p
    case Plain(c) => [c]
    case Colour(parameters) => [ESC, '['] + parameters + ['m']
  }

  function Render(ps: seq<Piece>): string {
    if ps == [] then "" else RenderPiece(ps[0]) + Render(ps[1..])
  }

  function PlainText(ps: seq<Piece>): string {
    if ps == [] then "" else (match ps[0] case Plain(c) => [c] case Colour(_) => "") + PlainText(ps[1..])
  }

  lemma {:induction false} SkipExactly(s: string, k: nat, p: nat)
    requires k <= p < |s| && !IsParameter(s[p]) && forall j :: k <= j < p ==> IsParameter(s[j])
    ensures SkipParameters(s, k) == p
  {
  }

  lemma ColourMatches(parameters: string, rest: string)
    requires WellFormed(Colour(parameters))
    ensures var code := RenderPiece(Colour(parameters));
            MatchLength(code + rest) == |code| && IndexOf(code + rest, 'm') == |code| - 1
  {
    var code := RenderPiece(Colour(parameters));
    var s, p := code + rest, 2 + |parameters|;
    assert s[p] == 'm' && Introducer(s) == 2;
    assert forall j :: 2 <= j < p ==> s[j] == parameters[j - 2];
    SkipExactly(s, 2, p);
    assert SkipIntermediates(s, p) == p;
    assert forall j :: 0 <= j < p ==> s[j] != 'm';
  }

  /** On coloured log lines both scanners return the text and nothing else. */
  lemma {:induction false} BothReturnTheText(ps: seq<Piece>)
    requires forall k :: 0 <= k < |ps| ==> WellFormed(ps[k])
    ensures StripPython(Render(ps)) == PlainText(ps) && StripPage(Render(ps)) == PlainText(ps)
    decreases |ps|
  {
    if ps == [] {
    } else {
      var code, rest := RenderPiece(ps[0]), Render(ps[1..]);
      var s := code + rest;
      BothReturnTheText(ps[1..]);
      assert s[|code|..] == rest;
      match ps[0]
      case Plain(c) => assert MatchLength(s) == 0;
      case Colour(parameters) => ColourMatches(parameters, rest);
    }
  }

  /** Coloured log lines have no stray control characters. */
  lemma {:induction false} ColouredIsNotStray(ps: seq<Piece>)
    requires forall k :: 0 <= k < |ps| ==> WellFormed(ps[k])
    ensures !Stray(Render(ps))
    decreases |ps|
  {
    if ps == [] {
    } else {
      var code, rest := RenderPiece(ps[0]), Render(ps[1..]);
      ColouredIsNotStray(ps[1..]);
      assert (code + rest)[|code|..] == rest;
      match ps[0]
      case Plain(c) => assert MatchLength(code + rest) == 0;
      case Colour(parameters) => ColourMatches(parameters, rest);
    }
  }
}

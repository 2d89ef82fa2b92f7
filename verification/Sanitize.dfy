/** Newline squeezing in message bodies (services/chat/src/api.rs). */
module Sanitize {
  const NL: char := '\n'

  /** What is kept of `s` when `seen` newlines stand directly before it. */
  function Squeeze(s: string, seen: nat): string {
    if s == [] then []
    else if s[0] != NL then [s[0]] + Squeeze(s[1..], 0)
    else (if seen < 2 then [NL] else []) + Squeeze(s[1..], seen + 1)
  }

  method SanitizeContent(content: string) returns (result: string)
    ensures result == Squeeze(content, 0)
  {
    result := [];
    var consecutiveNewlines := 0;
    assert content[0..] == content && content[|content|..] == [];
    for i := 0 to |content|
      invariant consecutiveNewlines >= 0 && Progress(content, i, consecutiveNewlines, result)
    {
      SqueezeNext(content, i, consecutiveNewlines, result);
      if content[i] == NL {
        consecutiveNewlines := consecutiveNewlines + 1;
        if consecutiveNewlines <= 2 {
          result := result + [content[i]];
        }
      } else {
        consecutiveNewlines := 0;
        result := result + [content[i]];
      }
    }
  }

  /** `result` is right so far. */
  ghost predicate Progress(content: string, i: nat, seen: nat, result: string)
    requires i <= |content|
  {
    result + Squeeze(content[i..], seen) == Squeeze(content, 0)
  }

  lemma SqueezeNext(content: string, i: nat, seen: nat, result: string)
    requires i < |content| && Progress(content, i, seen, result)
    ensures content[i] != NL ==> Progress(content, i + 1, 0, result + [content[i]])
    ensures content[i] == NL && seen + 1 <= 2 ==> Progress(content, i + 1, seen + 1, result + [content[i]])
    ensures content[i] == NL && seen + 1 > 2 ==> Progress(content, i + 1, seen + 1, result)
  {
    assert content[i..][0] == content[i] && content[i..][1..] == content[i + 1..];
  }

  // ── A text as words between newline runs ──

  /** Newline-free pieces; consecutive pieces are separated by the run lengths between them. */
  datatype Text = Last(word: string) | Then(head: string, newlines: nat, rest: Text)

  function Newlines(n: nat): string {
    seq(n, _ => NL)
  }

  function Flat(t: Text): string {
    match t
    case Last(w) => w
    case Then(w, n, rest) => w + Newlines(n) + Flat(rest)
  }

  /** Every run is maximal: the words between two runs are not empty. */
  ghost predicate Maximal(t: Text, first: bool) {
    match t
    case Last(w) => NL !in w
    case Then(w, n, rest) => NL !in w && (first || w != []) && n > 0 && Maximal(rest, false)
  }

  function Capped(t: Text): Text {
    match t
    case Last(w) => t
    case Then(w, n, rest) => Then(w, if n < 2 then n else 2, Capped(rest))
  }

  lemma {:induction false} SqueezeWord(w: string, rest: string, seen: nat)
    requires NL !in w && w != []
    ensures Squeeze(w + rest, seen) == w + Squeeze(rest, 0)
  {
    assert (w + rest)[0] == w[0] && (w + rest)[1..] == w[1..] + rest;
    if |w| == 1 {
      assert w[1..] + rest == rest && w == [w[0]];
    } else {
      assert NL !in w[1..];
      SqueezeWord(w[1..], rest, 0);
    }
  }

  lemma NewlinesCons(n: nat, rest: string)
    ensures Newlines(n + 1) + rest == [NL] + (Newlines(n) + rest)
  {
    assert Newlines(n + 1) == [NL] + Newlines(n);
  }

  /** How many newlines of a run survive. */
  function Kept(n: nat, seen: nat): nat {
    if seen + n <= 2 then n else if seen < 2 then 2 - seen else 0
  }

  lemma {:induction false} SqueezeRun(n: nat, rest: string, seen: nat)
    ensures Squeeze(Newlines(n) + rest, seen) == Newlines(Kept(n, seen)) + Squeeze(rest, seen + n)
    decreases n
  {
    if n == 0 {
      assert Newlines(0) + rest == rest && Newlines(0) + Squeeze(rest, seen) == Squeeze(rest, seen);
    } else {
      NewlinesCons(n - 1, rest);
      SqueezeRun(n - 1, rest, seen + 1);
      SqueezeNewline(Newlines(n - 1) + rest, seen);
      if seen < 2 {
        NewlinesCons(Kept(n - 1, seen + 1), Squeeze(rest, seen + n));
      }
    }
  }

  lemma SqueezeNewline(rest: string, seen: nat)
    ensures Squeeze([NL] + rest, seen) == (if seen < 2 then [NL] + Squeeze(rest, seen + 1) else Squeeze(rest, seen + 1))
  {
    assert ([NL] + rest)[0] == NL && ([NL] + rest)[1..] == rest;
  }

  /** Every maximal newline run is cut to at most two; every other character stays, in order. */
  lemma {:induction false} RunsAreCapped(t: Text, first: bool)
    requires Maximal(t, first)
    ensures Squeeze(Flat(t), 0) == Flat(Capped(t))
  {
    match t
    case Last(w) =>
      SqueezeAll(w, 0);
    case Then(w, n, rest) =>
      RunsAreCapped(rest, false);
      ForgetsRun(rest, n);
      SqueezeWordAndRun(w, n, Flat(rest));
  }

  lemma SqueezeWordAndRun(w: string, n: nat, rest: string)
    requires NL !in w && Squeeze(rest, n) == Squeeze(rest, 0)
    ensures Squeeze(w + Newlines(n) + rest, 0) == w + Newlines(if n < 2 then n else 2) + Squeeze(rest, 0)
  {
    SqueezeRun(n, rest, 0);
    Regroup(w, Newlines(n), rest);
    Regroup(w, Newlines(Kept(n, 0)), Squeeze(rest, 0));
    SqueezeFront(w, Newlines(n) + rest);
  }

  lemma Regroup(a: string, b: string, c: string)
    ensures a + b + c == a + (b + c)
  {
  }

  lemma SqueezeFront(w: string, rest: string)
    requires NL !in w
    ensures Squeeze(w + rest, 0) == w + Squeeze(rest, 0)
  {
    if w == [] {
      assert w + rest == rest && w + Squeeze(rest, 0) == Squeeze(rest, 0);
    } else {
      SqueezeWord(w, rest, 0);
    }
  }

  lemma SqueezeAll(w: string, seen: nat)
    requires NL !in w
    ensures Squeeze(w, seen) == w
  {
    if w != [] {
      SqueezeWord(w, [], seen);
      assert w + [] == w;
    }
  }

  /** After a maximal run a word follows, or nothing: the count no longer matters. */
  lemma ForgetsRun(t: Text, seen: nat)
    requires Maximal(t, false)
    ensures Squeeze(Flat(t), seen) == Squeeze(Flat(t), 0)
  {
    var w := if t.Last? then t.word else t.head;
    if w != [] {
      var rest := Flat(t)[|w|..];
      assert Flat(t) == w + rest;
      SqueezeWord(w, rest, seen);
      SqueezeWord(w, rest, 0);
    }
  }

  /** Every string is such a text, so the law above covers every input. */
  lemma {:induction false} EveryStringIsText(s: string) returns (t: Text)
    ensures Maximal(t, true) && Flat(t) == s
  {
    if s == [] {
      return Last([]);
    }
    var rest := EveryStringIsText(s[1..]);
    assert s == [s[0]] + s[1..];
    var w := if rest.Last? then rest.word else rest.head;
    if s[0] != NL {
      t := if rest.Last? then Last([s[0]] + w) else Then([s[0]] + w, rest.newlines, rest.rest);
      if rest.Then? {
        assert Flat(t) == [s[0]] + w + Newlines(rest.newlines) + Flat(rest.rest);
        assert Flat(t) == [s[0]] + Flat(rest);
      }
    } else if rest.Then? && w == [] {
      t := Then([], rest.newlines + 1, rest.rest);
      assert Newlines(rest.newlines + 1) == [NL] + Newlines(rest.newlines);
      assert Flat(rest) == Newlines(rest.newlines) + Flat(rest.rest);
    } else {
      t := Then([], 1, rest);
      assert Newlines(1) == [NL];
    }
  }

  lemma {:induction false} CappedKeepsMaximal(t: Text, first: bool)
    requires Maximal(t, first)
    ensures Maximal(Capped(t), first) && Capped(Capped(t)) == Capped(t)
  {
    if t.Then? {
      CappedKeepsMaximal(t.rest, false);
    }
  }

  /** Squeezing twice is squeezing once. */
  lemma SqueezeIsIdempotent(s: string)
    ensures Squeeze(Squeeze(s, 0), 0) == Squeeze(s, 0)
  {
    var t := EveryStringIsText(s);
    RunsAreCapped(t, true);
    CappedKeepsMaximal(t, true);
    RunsAreCapped(Capped(t), true);
  }

  predicate Triple(s: string, k: nat)
    requires k + 3 <= |s|
  {
    s[k] == s[k + 1] == s[k + 2] == NL
  }

  /** What the newlines before `s` still count for. */
  function Context(seen: nat): string {
    Newlines(if seen < 2 then seen else 2)
  }

  lemma ContextNewline(seen: nat, rest: string)
    requires seen < 2
    ensures Context(seen) + ([NL] + rest) == Context(seen + 1) + rest
  {
    assert Context(seen) + [NL] == Context(seen + 1);
    Regroup(Context(seen), [NL], rest);
  }

  lemma ContextStep(s: string, seen: nat)
    requires s != [] && s[0] == NL
    ensures Context(seen) + Squeeze(s, seen) == Context(seen + 1) + Squeeze(s[1..], seen + 1)
  {
    if seen < 2 {
      ContextNewline(seen, Squeeze(s[1..], seen + 1));
    } else {
      assert Squeeze(s, seen) == Squeeze(s[1..], seen + 1);
    }
  }

  lemma ContextEnds(s: string, seen: nat)
    requires s != [] && s[0] != NL
    ensures Context(seen) + Squeeze(s, seen) == Context(seen) + [s[0]] + Squeeze(s[1..], 0)
  {
    Regroup(Context(seen), [s[0]], Squeeze(s[1..], 0));
  }

  /** A triple cannot span a character that is not a newline, nor fit into a short run. */
  lemma NoTripleAround(run: string, c: char, rest: string, k: nat)
    requires c != NL && |run| <= 2 && k + 3 <= |run + [c] + rest|
    ensures Triple(run + [c] + rest, k) ==> |run| < k && k - |run| - 1 + 3 <= |rest| && Triple(rest, k - |run| - 1)
  {
    var s := run + [c] + rest;
    assert s[|run|] == c;
  }

  lemma NoContext(rest: string)
    ensures Context(0) + rest == rest
  {
    assert Context(0) == [];
  }

  /** No three newlines in a row, counting up to two that stand directly before. */
  lemma {:induction false} NoThreeInARow(s: string, seen: nat, k: nat)
    requires k + 3 <= |Context(seen) + Squeeze(s, seen)|
    ensures !Triple(Context(seen) + Squeeze(s, seen), k)
    decreases s
  {
    if s != [] && s[0] == NL {
      ContextStep(s, seen);
      NoThreeInARow(s[1..], seen + 1, k);
    } else if s != [] && Triple(Context(seen) + Squeeze(s, seen), k) {
      var rest := Squeeze(s[1..], 0);
      ContextEnds(s, seen);
      NoTripleAround(Context(seen), s[0], rest, k);
      NoContext(rest);
      NoThreeInARow(s[1..], 0, k - |Context(seen)| - 1);
    }
  }
}

/**
 Streaming with a fallback model: a target may be abandoned only before it has shown
 anything, so that two models' answers are never spliced.
 */
module Failover {
  import opened Wrappers

  /** One decoded stream line. */
  datatype Chunk = Chunk(content: string, toolCalls: seq<string>, error: string)

  datatype Line = Blank | Unreadable | Decoded(chunk: Chunk)

  /** How a target answers a turn: not at all, with a status, or with a body that ends well or badly. */
  datatype Reply = Unreachable | BadStatus | Body(lines: seq<Line>, endsEarly: bool)

  datatype Failure = HostDown | StatusRefused | ModelError | EndedEarly

  datatype Answer = Answer(content: string, toolCalls: seq<string>)

  /** A fragment on the user's screen, and the target it came from. */
  datatype Fragment = Fragment(target: nat, text: string)

  function Concat(fs: seq<Fragment>): string {
    if fs == [] then "" else Concat(fs[..|fs| - 1]) + fs[|fs| - 1].text
  }

  lemma {:induction false} ConcatAppend(a: seq<Fragment>, f: Fragment)
    ensures Concat(a + [f]) == Concat(a) + f.text
  {
    assert (a + [f])[..|a|] == a;
  }

  predicate IsError(line: Line) {
    line.Decoded? && line.chunk.error != ""
  }

  /** Lines up to the first error chunk, or all of them. */
  function BeforeError(lines: seq<Line>): seq<Line> {
    if lines == [] || IsError(lines[0]) then [] else [lines[0]] + BeforeError(lines[1..])
  }

  /** What one more line shows. */
  function ShownByLine(target: nat, line: Line): seq<Fragment> {
    if line.Decoded? && line.chunk.content != "" then [Fragment(target, line.chunk.content)] else []
  }

  /** The fragments lines show, in order: every non-empty content. */
  function Shown(target: nat, lines: seq<Line>): seq<Fragment> {
    if lines == [] then []
    else Shown(target, lines[..|lines| - 1]) + ShownByLine(target, lines[|lines| - 1])
  }

  predicate Succeeds(reply: Reply) {
    reply.Body? && !reply.endsEarly && BeforeError(reply.lines) == reply.lines
  }

  /** What a target shows before its turn ends. */
  function ShownBy(target: nat, reply: Reply): seq<Fragment> {
    if reply.Body? then Shown(target, BeforeError(reply.lines)) else []
  }

  lemma {:induction false} BeforeErrorPrefix(lines: seq<Line>, i: nat)
    requires i <= |lines| && forall j :: 0 <= j < i ==> !IsError(lines[j])
    ensures i < |lines| && IsError(lines[i]) ==> BeforeError(lines) == lines[..i] && BeforeError(lines) != lines
    ensures i == |lines| ==> BeforeError(lines) == lines
  {
    if i > 0 {
      assert forall j :: 0 <= j < i - 1 ==> lines[1..][j] == lines[j + 1];
      BeforeErrorPrefix(lines[1..], i - 1);
    }
  }

  /** The tool calls lines carry, in order. */
  function CallsIn(lines: seq<Line>): seq<string> {
    if lines == [] then []
    else
      var line := lines[|lines| - 1];
      CallsIn(lines[..|lines| - 1]) + if line.Decoded? then line.chunk.toolCalls else []
  }

  lemma CallsNext(lines: seq<Line>, i: nat)
    requires i < |lines|
    ensures CallsIn(lines[..i + 1]) == CallsIn(lines[..i]) + if lines[i].Decoded? then lines[i].chunk.toolCalls else []
  {
    assert lines[..i + 1][..i] == lines[..i];
  }

  /** The whole answer of a target whose turn ends well. */
  function AnswerOf(target: nat, reply: Reply): Answer
    requires reply.Body?
  {
    Answer(Concat(ShownBy(target, reply)), CallsIn(reply.lines))
  }

  lemma ShownNext(target: nat, lines: seq<Line>, i: nat)
    requires i < |lines|
    ensures Shown(target, lines[..i + 1]) == Shown(target, lines[..i]) + ShownByLine(target, lines[i])
  {
    assert lines[..i + 1][..i] == lines[..i];
  }

  /** What a turn that does not succeed is reported as. */
  function FailureOf(reply: Reply): Failure {
    match reply
    case Unreachable => HostDown
    case BadStatus => StatusRefused
    case Body(lines, _) => if BeforeError(lines) != lines then ModelError else EndedEarly
  }

  class Screen {
    var shown: seq<Fragment>
    var tried: seq<nat>

    constructor ()
      ensures shown == [] && tried == []
    {
      shown, tried := [], [];
    }

    /** ollamaChatStreamTo, calling back with every fragment as it arrives. */
    method StreamTo(target: nat, reply: Reply) returns (r: Result<Answer, Failure>, spoke: bool)
      modifies this`shown
      ensures r.Success? <==> Succeeds(reply)
      ensures shown == old(shown) + ShownBy(target, reply)
      ensures spoke <==> ShownBy(target, reply) != []
      ensures r.Success? ==> r.value == AnswerOf(target, reply)
      ensures r.Failure? ==> r.error == FailureOf(reply)
    {
      hide Concat, Shown, BeforeError, CallsIn;
      spoke := false;
      if reply.Unreachable? {
        return Failure(HostDown), false;
      }
      if reply.BadStatus? {
        return Failure(StatusRefused), false;
      }
      var text, calls := "", [];
      ghost var fragments: seq<Fragment> := [];
      ConcatNone();
      ShownNone(target);
      CallsNone();
      assert reply.lines[..0] == [];
      for i := 0 to |reply.lines|
        invariant forall j :: 0 <= j < i ==> !IsError(reply.lines[j])
        invariant fragments == Shown(target, reply.lines[..i])
        invariant shown == old(shown) + fragments && text == Concat(fragments)
        invariant spoke <==> fragments != []
        invariant calls == CallsIn(reply.lines[..i])
      {
        ShownNext(target, reply.lines, i);
        CallsNext(reply.lines, i);
        BeforeErrorPrefix(reply.lines, i);
        var line := reply.lines[i];
        if line.Decoded? {
          var c := line.chunk;
          if c.error != "" {
            return Failure(ModelError), spoke;
          }
          if c.content != "" {
            ConcatAppend(fragments, Fragment(target, c.content));
            fragments := fragments + [Fragment(target, c.content)];
            text := text + c.content;
            spoke := true;
            shown := shown + [Fragment(target, c.content)];
          }
          calls := calls + c.toolCalls;
        }
      }
      BeforeErrorPrefix(reply.lines, |reply.lines|);
      assert reply.lines[..|reply.lines|] == reply.lines;
      if reply.endsEarly {
        return Failure(EndedEarly), spoke;
      }
      return Success(Answer(text, calls)), spoke;
    }

    /**
     ollamaChatStream over any targets, any replies, and any moments at which the caller
     has gone away. All it shows comes from the last target it tried; success shows exactly
     the returned content; and it goes on to the next target only when the one before has
     failed in silence with the caller still there.
     */
    method ChatStream(replies: seq<Reply>, cancelled: seq<bool>) returns (r: Result<Answer, Option<Failure>>)
      requires |cancelled| == |replies|
      modifies this
      ensures exists n | 0 <= n <= |replies| ::
                (&& Tries(replies, cancelled, n)
                 && tried == old(tried) + seq(n, i => i)
                 && shown == old(shown) + (if n == 0 then [] else ShownBy(n - 1, replies[n - 1]))
                 && (r.Success? <==> n > 0 && Succeeds(replies[n - 1]))
                 && (r.Success? ==> r.value == AnswerOf(n - 1, replies[n - 1])))
      ensures r.Failure? ==> r.error == if replies == [] then None else Some(FailureOf(replies[0]))
    {
      hide Concat, ShownBy, CallsIn, AnswerOf, BeforeError;
      var firstErr: Option<Failure> := None;
      ghost var shown0, tried0 := shown, tried;
      for i := 0 to |replies|
        invariant GoesOn(replies, cancelled, i)
        invariant firstErr == if i == 0 then None else Some(FailureOf(replies[0]))
        invariant shown == shown0 && tried == tried0 + seq(i, k => k)
      {
        assert seq(i + 1, k => k) == seq(i, k => k) + [i];
        tried := tried + [i];
        var answer, spoke := StreamTo(i, replies[i]);
        if answer.Success? {
          assert Tries(replies, cancelled, i + 1);
          return Success(answer.value);
        }
        if firstErr.None? {
          firstErr := Some(answer.error);
        }
        if spoke || cancelled[i] {
          assert Tries(replies, cancelled, i + 1);
          return Failure(firstErr);
        }
      }
      assert Tries(replies, cancelled, |replies|);
      r := Failure(firstErr);
    }
  }

  // ── what a turn shows, read from the stream ────────────────────────────────

  /** The text of the lines up to the first that carries an error. */
  function TextOf(lines: seq<Line>): string {
    if lines == [] then ""
    else
      match lines[0]
      case Blank => TextOf(lines[1..])
      case Unreadable => TextOf(lines[1..])
      case Decoded(c) => if c.error != "" then "" else c.content + TextOf(lines[1..])
  }

  ghost predicate HasError(lines: seq<Line>) {
    exists i :: 0 <= i < |lines| && lines[i].Decoded? && lines[i].chunk.error != ""
  }

  lemma {:induction false} ConcatPrepend(f: Fragment, fs: seq<Fragment>)
    ensures Concat([f] + fs) == f.text + Concat(fs)
  {
    if fs == [] {
      assert [f] + fs == [f] && [f][..0] == [];
    } else {
      assert ([f] + fs)[..|fs|] == [f] + fs[..|fs| - 1];
      ConcatPrepend(f, fs[..|fs| - 1]);
    }
  }

  lemma {:induction false} ShownPrepend(target: nat, line: Line, lines: seq<Line>)
    ensures Shown(target, [line] + lines) == ShownByLine(target, line) + Shown(target, lines)
  {
    if lines == [] {
      assert [line] + lines == [line] && [line][..0] == [];
    } else {
      assert ([line] + lines)[..|lines|] == [line] + lines[..|lines| - 1];
      ShownPrepend(target, line, lines[..|lines| - 1]);
    }
  }

  /** All that a target shows is that text, in fragments none of which is empty, and each its own. */
  lemma {:induction false} ShowsText(target: nat, lines: seq<Line>)
    ensures var fs := Shown(target, BeforeError(lines));
            && Concat(fs) == TextOf(lines)
            && (fs == [] <==> TextOf(lines) == "")
            && forall f :: f in fs ==> f.target == target && f.text != ""
  {
    hide Concat, Shown;
    if lines == [] || IsError(lines[0]) {
      ConcatNone();
      ShownNone(target);
    } else {
      ShowsText(target, lines[1..]);
      var first, rest := ShownByLine(target, lines[0]), Shown(target, BeforeError(lines[1..]));
      ShownPrepend(target, lines[0], BeforeError(lines[1..]));
      if first != [] {
        ConcatPrepend(first[0], rest);
        assert first == [first[0]];
      } else {
        assert first + rest == rest;
      }
    }
  }

  lemma {:induction false} WholeExact(lines: seq<Line>)
    ensures BeforeError(lines) == lines <==> !HasError(lines)
  {
    if lines != [] {
      WholeExact(lines[1..]);
      assert lines == [lines[0]] + lines[1..];
      if HasError(lines) && !IsError(lines[0]) {
        var i :| 0 <= i < |lines| && lines[i].Decoded? && lines[i].chunk.error != "";
        assert lines[1..][i - 1] == lines[i];
      }
      if HasError(lines[1..]) {
        var i :| 0 <= i < |lines[1..]| && lines[1..][i].Decoded? && lines[1..][i].chunk.error != "";
        assert lines[i + 1] == lines[1..][i];
      }
    }
  }

  /** The tool calls of the lines, first to last. */
  function CallsFrom(lines: seq<Line>): seq<string> {
    if lines == [] then []
    else (if lines[0].Decoded? then lines[0].chunk.toolCalls else []) + CallsFrom(lines[1..])
  }

  lemma {:induction false} CallsInOrder(lines: seq<Line>, more: seq<Line>)
    ensures CallsFrom(lines + more) == CallsFrom(lines) + CallsFrom(more)
  {
    if lines == [] {
      assert lines + more == more;
    } else {
      assert (lines + more)[1..] == lines[1..] + more;
      CallsInOrder(lines[1..], more);
    }
  }

  lemma {:induction false} CallsExact(lines: seq<Line>)
    ensures CallsIn(lines) == CallsFrom(lines)
  {
    if lines != [] {
      var before, last := lines[..|lines| - 1], lines[|lines| - 1];
      CallsExact(before);
      CallsInOrder(before, [last]);
      assert lines == before + [last];
    }
  }

  /** A turn succeeds exactly on a whole body without an error, and then gives its text and its tool calls. */
  lemma TurnExact(target: nat, reply: Reply)
    ensures Succeeds(reply) <==> reply.Body? && !reply.endsEarly && !HasError(reply.lines)
    ensures reply.Body? ==> AnswerOf(target, reply) == Answer(TextOf(reply.lines), CallsFrom(reply.lines))
    ensures !Succeeds(reply) && reply.Body? ==> FailureOf(reply) == if HasError(reply.lines) then ModelError else EndedEarly
    ensures ShownBy(target, reply) != [] <==> reply.Body? && TextOf(reply.lines) != ""
    ensures forall f :: f in ShownBy(target, reply) ==> f.target == target
  {
    if reply.Body? {
      hide Concat, Shown, BeforeError, TextOf, HasError;
      ShowsText(target, reply.lines);
      WholeExact(reply.lines);
      CallsExact(reply.lines);
    }
  }

  /** The target fails without having shown anything. */
  ghost predicate FailsSilently(reply: Reply) {
    reply.Body? ==> TextOf(reply.lines) == "" && (reply.endsEarly || HasError(reply.lines))
  }

  /**
   The fallback is used exactly when it should be: target k + 1 is tried if and only if every
   one before it failed in silence with the caller still there.
   */
  lemma FallbackExact(replies: seq<Reply>, cancelled: seq<bool>, n: nat, k: nat)
    requires k < |replies| == |cancelled| && n <= |replies| && Tries(replies, cancelled, n)
    ensures k < n <==> forall i :: 0 <= i < k ==> FailsSilently(replies[i]) && !cancelled[i]
  {
    hide Succeeds, ShownBy, FailsSilently;
    forall i | 0 <= i < |replies|
      ensures FailsSilently(replies[i]) <==> !Succeeds(replies[i]) && ShownBy(i, replies[i]) == []
    {
      SilenceExact(i, replies[i]);
    }
  }

  lemma SilenceExact(target: nat, reply: Reply)
    ensures FailsSilently(reply) <==> !Succeeds(reply) && ShownBy(target, reply) == []
  {
    hide Succeeds, ShownBy;
    TurnExact(target, reply);
  }

  lemma ShownNone(target: nat)
    ensures Shown(target, []) == []
  {
  }

  lemma CallsNone()
    ensures CallsIn([]) == []
  {
  }

  lemma ConcatNone()
    ensures Concat([]) == ""
  {
  }

  /** The first n targets all failed in silence with the caller still there. */
  ghost predicate GoesOn(replies: seq<Reply>, cancelled: seq<bool>, n: nat)
    requires n <= |replies| == |cancelled|
  {
    forall i :: 0 <= i < n ==> !Succeeds(replies[i]) && ShownBy(i, replies[i]) == [] && !cancelled[i]
  }

  /** Exactly the first n targets are tried: every one but the last goes on, and the last does not. */
  ghost predicate Tries(replies: seq<Reply>, cancelled: seq<bool>, n: nat)
    requires n <= |replies| == |cancelled|
  {
    && (n > 0 ==> GoesOn(replies, cancelled, n - 1))
    && (n < |replies| ==> n > 0 && !GoesOn(replies, cancelled, n))
  }

  /** Those conditions fix how many targets are tried, so the outcome is determined. */
  lemma TriesUnique(replies: seq<Reply>, cancelled: seq<bool>, m: nat, n: nat)
    requires m <= |replies| == |cancelled| && n <= |replies|
    requires Tries(replies, cancelled, m) && Tries(replies, cancelled, n)
    ensures m == n
  {
    hide Succeeds, ShownBy;
    if m < n {
      GoesOnLess(replies, cancelled, m, n - 1);
    } else if n < m {
      GoesOnLess(replies, cancelled, n, m - 1);
    }
  }

  lemma GoesOnLess(replies: seq<Reply>, cancelled: seq<bool>, m: nat, n: nat)
    requires m <= n <= |replies| == |cancelled| && GoesOn(replies, cancelled, n)
    ensures GoesOn(replies, cancelled, m)
  {
  }

  /**
   Never spliced: whatever a call over these targets shows comes from one target, the last
   one tried, and no target is tried after one that has shown anything.
   */
  lemma NeverSpliced(replies: seq<Reply>, cancelled: seq<bool>, n: nat, k: nat)
    requires n <= |replies| == |cancelled| && Tries(replies, cancelled, n) && k < n
    ensures ShownBy(k, replies[k]) != [] ==> k == n - 1
    ensures forall f :: f in ShownBy(k, replies[k]) ==> f.target == k
  {
    hide Succeeds;
    if replies[k].Body? {
      ShownTarget(k, BeforeError(replies[k].lines));
    }
  }

  lemma {:induction false} ShownTarget(target: nat, lines: seq<Line>)
    ensures forall f :: f in Shown(target, lines) ==> f.target == target
  {
    if lines != [] {
      ShownTarget(target, lines[..|lines| - 1]);
    }
  }
}

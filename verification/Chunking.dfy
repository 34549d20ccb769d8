/** Reads may cut the stream anywhere: a token that is complete stays the same token when more input arrives, so the
    receiver ends in the same state however the stream was split. */
module Chunking {
  import opened Strings
  import opened Terminal

  lemma {:induction false} ParametersOfLongerInput(p: string, more: string, i: nat)
    requires i <= |p| && RunOfParameters(p, i) < |p|
    ensures RunOfParameters(p + more, i) == RunOfParameters(p, i)
    decreases |p| - i
  {
    if i < |p| && Parameter(p[i]) { ParametersOfLongerInput(p, more, i + 1); }
  }

  lemma {:induction false} IntermediatesOfLongerInput(p: string, more: string, i: nat)
    requires i <= |p| && RunOfIntermediates(p, i) < |p|
    ensures RunOfIntermediates(p + more, i) == RunOfIntermediates(p, i)
    decreases |p| - i
  {
    if i < |p| && Intermediate(p[i]) { IntermediatesOfLongerInput(p, more, i + 1); }
  }

  lemma {:induction false} StringEndOfLongerInput(p: string, more: string, i: nat)
    requires i <= |p| && StringEnd(p, i).Some?
    ensures StringEnd(p + more, i) == StringEnd(p, i)
    decreases |p| - i
  {
    if p[i] != BEL && !(i + 1 < |p| && p[i] == ESC && p[i + 1] == '\\') {
      StringEndOfLongerInput(p, more, i + 1);
      assert i + 1 < |p|;
    }
  }

  /** A completed token never changes. */
  lemma NextOfLongerInput(p: string, more: string)
    requires p != [] && Next(p).Lexeme?
    ensures Next(p + more) == Next(p)
  {
    if p[0] == ESC && p[1] == '[' {
      var i := RunOfParameters(p, 2);
      var j := RunOfIntermediates(p, i);
      ParametersOfLongerInput(p, more, 2);
      IntermediatesOfLongerInput(p, more, i);
      assert (p + more)[2..j] == p[2..j];
    } else if p[0] == ESC && p[1] in {']', 'P', '_'} {
      StringEndOfLongerInput(p, more, 2);
    }
  }

  /** Draining a stream is draining its front and then, with what was left over, its back. */
  lemma {:induction false} DrainInTwo(m: Metrics, s: Screen, front: string, back: string)
    requires Shaped(s)
    ensures var first := Drain(m, s, front);
            Drain(m, s, front + back) == Drain(m, first.screen, first.pending + back)
    decreases |front|
  {
    hide Step, Next;
    if front == [] {
      assert front + back == back;
    } else if Next(front).Lexeme? {
      var Lexeme(token, size) := Next(front);
      NextOfLongerInput(front, back);
      assert (front + back)[size..] == front[size..] + back;
      DrainInTwo(m, Step(m, s, token), front[size..], back);
    }
  }

  /** One read, and what it leaves for the reads after it. */
  lemma FirstRead(m: Metrics, r: Receiver, chunk: string, rest: string)
    requires Shaped(r.screen)
    ensures var fed, all := Feed(m, r, chunk), r.pending + (chunk + rest);
            && (fed.None? ==> Utf16Length(all) > CAPTURE_LIMIT)
            && (fed.Some? ==>
                  && Drain(m, fed.value.screen, fed.value.pending + rest) == Drain(m, r.screen, all)
                  && Utf16Length(fed.value.pending + rest) <= Utf16Length(all))
  {
    hide Drain, Utf16Length;
    var whole := r.pending + chunk;
    assert r.pending + (chunk + rest) == whole + rest;
    Utf16LengthOfConcat(whole, rest);
    var fed := Feed(m, r, chunk);
    if fed.Some? {
      DrainInTwo(m, r.screen, whole, rest);
      var left := fed.value.pending;
      assert whole == whole[..|whole| - |left|] + left;
      Utf16LengthOfConcat(whole[..|whole| - |left|], left);
      Utf16LengthOfConcat(left, rest);
    }
  }

  /** What any split of a stream computes, when no read overflows: the drain of the whole stream. A split of a stream that
      fits the capture limit never overflows. */
  lemma {:induction false} FeedAllIsDrain(m: Metrics, r: Receiver, chunks: seq<string>)
    requires Shaped(r.screen) && Waiting(r.pending)
    ensures FeedAll(m, r, chunks).Some? ==> FeedAll(m, r, chunks).value == Drain(m, r.screen, r.pending + Concat(chunks))
    ensures Utf16Length(r.pending + Concat(chunks)) <= CAPTURE_LIMIT ==> FeedAll(m, r, chunks).Some?
    decreases |chunks|
  {
    hide Drain, Feed, Utf16Length;
    if chunks == [] {
      assert r.pending + Concat(chunks) == r.pending;
      DrainOne(m, r.screen, r.pending);
    } else {
      FirstRead(m, r, chunks[0], Concat(chunks[1..]));
      var fed := Feed(m, r, chunks[0]);
      if fed.Some? { FeedAllIsDrain(m, fed.value, chunks[1..]); }
    }
  }

  /** Chunking does not matter: two splits of one stream leave the same screen and the same pending input, and a stream
      that fits in one read can be split in any way. */
  lemma ChunkingDoesNotMatter(m: Metrics, r: Receiver, chunks: seq<string>, others: seq<string>)
    requires Shaped(r.screen) && Waiting(r.pending) && Concat(chunks) == Concat(others)
    ensures FeedAll(m, r, chunks).Some? && FeedAll(m, r, others).Some? ==> FeedAll(m, r, chunks) == FeedAll(m, r, others)
    ensures Feed(m, r, Concat(chunks)).Some? ==> FeedAll(m, r, chunks) == Feed(m, r, Concat(chunks))
  {
    hide Drain, Next;
    FeedAllIsDrain(m, r, chunks);
    FeedAllIsDrain(m, r, others);
  }

  // ---------------------------------------------------------------------------
  // The tokenizer against the grammar it implements

  /** `t` is one whole control sequence: ESC [, parameter bytes up to `i`, intermediate bytes, one final byte. */
  predicate ControlSequence(t: string, i: nat) {
    && 2 <= i < |t| && t[0] == ESC && t[1] == '['
    && (forall k :: 2 <= k < i ==> Parameter(t[k]))
    && (forall k :: i <= k < |t| - 1 ==> Intermediate(t[k]))
    && Final(t[|t| - 1])
  }

  lemma {:induction false} RunsEndTogether(p: string, n: nat, i: nat)
    requires n <= |p| && ControlSequence(p[..n], i)
    ensures RunOfParameters(p, 2) == i && RunOfIntermediates(p, i) == n - 1
  {
    var j, e := RunOfParameters(p, 2), RunOfIntermediates(p, i);
    assert forall k :: 0 <= k < n ==> p[..n][k] == p[k];
  }

  /** The first token of input that starts with ESC [ has length `n` exactly when the first `n` characters are a control
      sequence; no other length qualifies. Its body is everything between the bracket and the final byte. */
  lemma ControlTokenIsControlSequence(p: string, n: nat)
    requires |p| >= 2 && p[0] == ESC && p[1] == '['
    ensures Next(p).Lexeme? && Next(p).size == n <==> n <= |p| && exists i :: ControlSequence(p[..n], i)
    ensures Next(p).Lexeme? ==> Next(p).token == Control(p[2..Next(p).size - 1], p[Next(p).size - 1])
  {
    var i := RunOfParameters(p, 2);
    if Next(p).Lexeme? {
      var t := p[..Next(p).size];
      assert ControlSequence(t, i);
    }
    if n <= |p| && exists k :: ControlSequence(p[..n], k) {
      var k :| ControlSequence(p[..n], k);
      assert p[..n][n - 1] == p[n - 1];
      RunsEndTogether(p, n, k);
    }
  }

  /** A control string (OSC, DCS, APC) is skipped up to its first terminator and no further. */
  lemma StringTokenEndsAtFirstTerminator(p: string, n: nat)
    requires |p| >= 2 && p[0] == ESC && p[1] in {']', 'P', '_'}
    ensures Next(p) == Lexeme(Skipped, n) <==> StringEndsAt(p, 2, n) && forall e :: 2 <= e < n ==> !StringEndsAt(p, 2, e)
  {
    var end := StringEnd(p, 2);
    if end.Some? && StringEndsAt(p, 2, n) && end.value < n {
      assert StringEndsAt(p, 2, end.value);
    }
  }

  /** A control sequence at the front of the input takes its step. */
  lemma ControlFed(m: Metrics, s: Screen, text: string, i: nat, rest: string)
    requires Shaped(s) && ControlSequence(text, i)
    ensures Drain(m, s, text + rest) == Drain(m, Step(m, s, Control(text[2..|text| - 1], text[|text| - 1])), rest)
  {
    hide Drain, Step, Next;
    var p := text + rest;
    assert p[..|text|] == text && p[|text|..] == rest && p[2..|text| - 1] == text[2..|text| - 1];
    ControlTokenIsControlSequence(p, |text|);
    DrainOne(m, s, p);
  }

  /** Any character but ESC is a token of its own. */
  lemma CharFed(m: Metrics, s: Screen, c: char, rest: string)
    requires Shaped(s) && c != ESC
    ensures Drain(m, s, [c] + rest) == Drain(m, Char(m, s, c), rest)
  {
    hide Drain, Char, Interpret, Apply, RowsShaped;
    DrainOne(m, s, [c] + rest);
    assert ([c] + rest)[1..] == rest;
  }
}

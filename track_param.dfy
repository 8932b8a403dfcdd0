/**
 The tolerant parameter reader `TRACK::GetParam` of include/track.h as a
 function of the stream it reads: one whitespace-delimited token is
 read, comment tokens (those starting with `#`) are skipped together
 with the rest of their line, and the surviving token is handed to a
 converter. The converter `sstr >> output` is a parameter, `convert`,
 taking the old value of `output` and the token.
 */
module TrackParam {
  import opened Streams

  /** The longest line remainder `ignore` discards after a comment token. */
  const CommentLineLimit: nat := 1024

  /** A token that starts with `#`. */
  predicate IsComment(t: string) {
    |t| > 0 && t[0] == '#'
  }

  /**
   Where the comment-skipping loop stops, what `instr` then holds, and
   the comment tokens it skipped on the way, in order.
   */
  datatype Skip = Skip(after: StreamState, token: string, skipped: seq<string>)

  /**
   The loop `while (instr is a comment && f.good()) { f.ignore(1024, '\n');
   f >> instr; }` run from stream `s` with `instr == tok`.
   */
  function SkipComments(s: StreamState, tok: string): (r: Skip)
    requires s.Valid()
    ensures r.after.Valid() && r.after.data == s.data && s.pos <= r.after.pos
    // the loop condition is false where it stops
    ensures !(IsComment(r.token) && r.after.Good())
    // the loop runs exactly when its condition holds on entry
    ensures r.skipped == [] <==> !(IsComment(tok) && s.Good())
    ensures r.skipped == [] ==> r == Skip(s, tok, [])
    ensures r.skipped != [] ==> r.skipped[0] == tok
    ensures forall k :: 0 <= k < |r.skipped| ==> IsComment(r.skipped[k])
    // a read that succeeds yields a word, a read that fails leaves instr alone
    ensures r.token == tok || IsWord(r.token)
    decreases Budget(s)
  {
    if IsComment(tok) && s.Good() then
      var next := Extracted(Ignored(s, CommentLineLimit, '\n'), tok);
      var rest := SkipComments(next.after, next.token);
      var skipped := [tok] + rest.skipped;
      assert forall k :: 0 < k < |skipped| ==> skipped[k] == rest.skipped[k - 1];
      Skip(rest.after, rest.token, skipped)
    else
      Skip(s, tok, [])
  }

  /**
   What a call of `GetParam` returns, the stream it leaves, the new value
   of `output`, the token handed to the converter (`None` when the
   converter is not called) and the comment tokens it skipped.
   */
  datatype Outcome<T> = Outcome(ok: bool, stream: StreamState, output: T,
                                converted: Option<string>, skipped: seq<string>)

  datatype Option<T> = None | Some(value: T)

  /** `GetParam(f, output)` on a stream whose value is `s`. */
  function GetParamOutcome<T>(s: StreamState, output: T, convert: (T, string) -> T): (r: Outcome<T>)
    requires s.Valid()
    ensures r.stream.Valid() && r.stream.data == s.data && s.pos <= r.stream.pos
    ensures r.ok <==> r.converted.Some?
    ensures r.ok ==> r.output == convert(output, r.converted.value)
    ensures !r.ok ==> r.output == output
  {
    if !s.Good() then
      Outcome(false, s, output, None, [])
    else
      var first := Extracted(s, "");
      if first.token == "" then
        Outcome(false, first.after, output, None, [])
      else
        var last := SkipComments(first.after, first.token);
        if !last.after.Good() && IsComment(last.token) then
          Outcome(false, last.after, output, None, last.skipped)
        else
          Outcome(true, last.after, convert(output, last.token), Some(last.token), last.skipped)
  }

  /** The token the first extraction of a call yields. */
  function FirstToken(s: StreamState): Read
    requires s.Valid()
  {
    Extracted(s, "")
  }

  /** Where the comment-skipping loop of a call stops. */
  function LoopExit(s: StreamState): Skip
    requires s.Valid()
  {
    var first := FirstToken(s);
    SkipComments(first.after, first.token)
  }

  /** A stream that is not good on entry: false, nothing read, output untouched. */
  lemma NotGoodOnEntry<T>(s: StreamState, output: T, convert: (T, string) -> T)
    requires s.Valid() && !s.Good()
    ensures var r := GetParamOutcome(s, output, convert);
            !r.ok && r.stream == s && r.output == output && r.converted == None
  {
  }

  /**
   When only whitespace is left: false, output untouched, the whitespace
   consumed and the stream at its end with eofbit and failbit set.
   */
  lemma OnlySpaceLeft<T>(s: StreamState, output: T, convert: (T, string) -> T)
    requires s.Valid() && s.Good() && AllSpace(s.data, s.pos, |s.data|)
    ensures var r := GetParamOutcome(s, output, convert);
            && !r.ok && r.output == output && r.converted == None
            && r.stream == s.(pos := |s.data|, eof := true, fail := true)
  {
  }

  /** The first extraction yields nothing exactly when only whitespace is left. */
  lemma {:induction false} FirstTokenEmpty(s: StreamState)
    requires s.Valid() && s.Good()
    ensures FirstToken(s).token == "" <==> AllSpace(s.data, s.pos, |s.data|)
  {
    if !AllSpace(s.data, s.pos, |s.data|) {
      assert IsWord(FirstToken(s).token);
    }
  }

  /**
   The three ways to return false, and no other: not good on entry,
   nothing but whitespace left, or a comment token is what the loop last
   read when the stream stopped being good.
   */
  lemma {:induction false} FalseExactly<T>(s: StreamState, output: T, convert: (T, string) -> T)
    requires s.Valid()
    ensures var r := GetParamOutcome(s, output, convert);
            !r.ok <==> || !s.Good()
                       || AllSpace(s.data, s.pos, |s.data|)
                       || (!LoopExit(s).after.Good() && IsComment(LoopExit(s).token))
  {
    if s.Good() {
      FirstTokenEmpty(s);
    }
  }

  /**
   On success the converter receives a word that is not a comment, and
   the new output is its conversion.
   */
  lemma {:induction false} ConvertsNonComment<T>(s: StreamState, output: T, convert: (T, string) -> T)
    requires s.Valid()
    ensures var r := GetParamOutcome(s, output, convert);
            r.ok ==> && r.converted.Some?
                     && IsWord(r.converted.value)
                     && r.converted.value[0] != '#'
                     && r.output == convert(output, r.converted.value)
  {
    var r := GetParamOutcome(s, output, convert);
    if r.ok {
      var first := FirstToken(s);
      assert first.token != "";
      assert IsWord(first.token);
    }
  }

  /** Every token skipped on the way is a comment. */
  lemma SkippedAreComments<T>(s: StreamState, output: T, convert: (T, string) -> T)
    requires s.Valid()
    ensures var r := GetParamOutcome(s, output, convert);
            forall k :: 0 <= k < |r.skipped| ==> IsComment(r.skipped[k])
  {
  }

  /**
   The cursor only moves forward over the same contents, and on success
   it stops right after the converted word, so that the next call starts
   with the next token.
   */
  lemma {:induction false} StopsAfterToken<T>(s: StreamState, output: T, convert: (T, string) -> T)
    requires s.Valid()
    ensures var r := GetParamOutcome(s, output, convert);
            && r.stream.data == s.data && s.pos <= r.stream.pos <= |s.data|
            && (r.ok ==> WordAtCursor(s.data, s.pos, r.stream.pos, r.converted.value))
  {
    var r := GetParamOutcome(s, output, convert);
    if r.ok {
      var first := FirstToken(s);
      if IsComment(first.token) && first.after.Good() {
        LastReadIsWordAtCursor(first.after, first.token);
      }
    }
  }

  /**
   When the loop ran and stopped on a token that is not a comment, that
   token was the last read and succeeded: it is the word just before the
   cursor, and the cursor sits at whitespace or the end.
   */
  lemma {:induction false} LastReadIsWordAtCursor(s: StreamState, tok: string)
    requires s.Valid() && IsComment(tok) && s.Good()
    requires !IsComment(SkipComments(s, tok).token)
    ensures WordAtCursor(s.data, s.pos, SkipComments(s, tok).after.pos, SkipComments(s, tok).token)
    decreases Budget(s)
  {
    var ign := Ignored(s, CommentLineLimit, '\n');
    var next := Extracted(ign, tok);
    var r := SkipComments(s, tok);
    assert r.after == SkipComments(next.after, next.token).after;
    assert r.token == SkipComments(next.after, next.token).token;
    if IsComment(next.token) && next.after.Good() {
      LastReadIsWordAtCursor(next.after, next.token);
    } else {
      assert r.after == next.after && r.token == next.token;
      ReadEndingLoop(ign, tok);
    }
  }

  /**
   `tok` is what lies just before position `p`, after `from`, and `p` is
   at whitespace or at the end: the cursor stands right after the word.
   */
  ghost predicate WordAtCursor(data: seq<char>, from: nat, p: nat, tok: string) {
    && from <= p <= |data|
    && |tok| <= p - from
    && data[p - |tok|..p] == tok
    && (p == |data| || IsSpace(data[p]))
  }

  /**
   A read that replaces a comment in `instr` by a non-comment succeeded:
   the new token is the word just before the cursor.
   */
  lemma ReadEndingLoop(s: StreamState, tok: string)
    requires s.Valid() && IsComment(tok) && !IsComment(Extracted(s, tok).token)
    ensures WordAtCursor(s.data, s.pos, Extracted(s, tok).after.pos, Extracted(s, tok).token)
  {
    var r := Extracted(s, tok);
    assert r.token != tok;
    assert s.Good() && !AllSpace(s.data, s.pos, |s.data|);
  }

  /**
   Without a leading comment the call returns the first word itself,
   skipping nothing, and everything it consumed before that word is
   whitespace.
   */
  lemma NoCommentFirstWord<T>(s: StreamState, output: T, convert: (T, string) -> T)
    requires s.Valid() && s.Good() && !AllSpace(s.data, s.pos, |s.data|)
    requires !IsComment(FirstToken(s).token)
    ensures var r := GetParamOutcome(s, output, convert);
            && r.ok && r.skipped == [] && r.converted == Some(FirstToken(s).token)
            && r.stream == FirstToken(s).after
            && AllSpace(s.data, s.pos, r.stream.pos - |FirstToken(s).token|)
  {
  }

  /**
   A comment followed by nothing but whitespace: the read after the
   discarded line fails and leaves the comment in `instr`, so the call
   returns false with output untouched; the converter never sees an
   empty token.
   */
  lemma {:induction false} TrailingCommentFails<T>(s: StreamState, output: T, convert: (T, string) -> T)
    requires s.Valid() && s.Good()
    requires IsComment(FirstToken(s).token)
    requires AllSpace(s.data, FirstToken(s).after.pos, |s.data|)
    ensures var r := GetParamOutcome(s, output, convert);
            !r.ok && r.output == output && r.converted == None
  {
    var first := FirstToken(s);
    if first.after.Good() {
      var ign := Ignored(first.after, CommentLineLimit, '\n');
      AllSpaceSuffix(s.data, first.after.pos, ign.pos);
      var next := Extracted(ign, first.token);
      assert next.token == first.token && !next.after.Good();
      assert SkipComments(next.after, next.token).token == first.token;
    }
  }

  /** No call ever hands an empty token to the converter. */
  lemma NoEmptyConversion<T>(s: StreamState, output: T, convert: (T, string) -> T)
    requires s.Valid()
    ensures var r := GetParamOutcome(s, output, convert);
            r.ok ==> r.converted.Some? && r.converted.value != ""
  {
    ConvertsNonComment(s, output, convert);
  }

  /**
   A comment whose line ends within the limit, followed by a line whose
   first word is not a comment: the call converts that word. This is the
   ordinary use of a commented parameter file.
   */
  lemma CommentLineThenWord<T>(s: StreamState, output: T, convert: (T, string) -> T, nl: nat)
    requires s.Valid() && s.Good()
    requires IsComment(FirstToken(s).token) && FirstToken(s).after.Good()
    requires FirstToken(s).after.pos <= nl < |s.data| && nl < FirstToken(s).after.pos + CommentLineLimit
    requires s.data[nl] == '\n'
    requires forall k :: FirstToken(s).after.pos <= k < nl ==> s.data[k] != '\n'
    requires !AllSpace(s.data, nl + 1, |s.data|)
    requires !IsComment(Extracted(s.(pos := nl + 1), "").token)
    ensures var r := GetParamOutcome(s, output, convert);
            && r.ok && r.skipped == [FirstToken(s).token]
            && r.converted == Some(Extracted(s.(pos := nl + 1), "").token)
  {
    var first := FirstToken(s);
    var ign := Ignored(first.after, CommentLineLimit, '\n');
    LineDiscarded(first.after, nl);
    assert ign == s.(pos := nl + 1);
  }

  /**
   `ignore(1024, '\n')` with a newline at `nl` within the limit and none
   before it discards exactly up to and including that newline.
   */
  lemma {:induction false} LineDiscarded(s: StreamState, nl: nat)
    requires s.Valid() && s.Good()
    requires s.pos <= nl < |s.data| && nl < s.pos + CommentLineLimit
    requires s.data[nl] == '\n'
    requires forall k :: s.pos <= k < nl ==> s.data[k] != '\n'
    ensures Ignored(s, CommentLineLimit, '\n') == s.(pos := nl + 1)
  {
    IgnoreThroughDelimiter(s, CommentLineLimit, '\n', nl);
  }

  /**
   The cursor at the top of each round of the comment-skipping loop run
   from `s` with `instr == tok`: the position right after the comment the
   round skips. There is one per token in `SkipComments(s, tok).skipped`.
   */
  ghost function LoopCursors(s: StreamState, tok: string): seq<nat>
    requires s.Valid()
    decreases Budget(s)
  {
    if IsComment(tok) && s.Good() then
      var next := Extracted(Ignored(s, CommentLineLimit, '\n'), tok);
      [s.pos] + LoopCursors(next.after, next.token)
    else
      []
  }

  /**
   The round of the loop that starts on a good stream with the cursor at
   `p`: discard the rest of the line, then read into `instr == tok`.
   */
  function Round(data: seq<char>, p: nat, tok: string): Read
    requires p <= |data|
  {
    Extracted(Ignored(StreamState(data, p, false, false), CommentLineLimit, '\n'), tok)
  }

  /**
   `tok` is the word a round starting at `p` read: only whitespace lies
   between the end of the discarded line and the word, and the cursor `q`
   stands right after it.
   */
  ghost predicate ReadAfterLine(data: seq<char>, p: nat, q: nat, tok: string)
    requires p <= |data|
  {
    var from := Ignored(StreamState(data, p, false, false), CommentLineLimit, '\n').pos;
    && WordAtCursor(data, from, q, tok)
    && AllSpace(data, from, q - |tok|)
  }

  /**
   One round of the loop unfolded: its cursor comes first, then the
   cursors and skipped comments of the rounds after it.
   */
  lemma RoundUnfolds(s: StreamState, tok: string)
    requires s.Valid() && IsComment(tok) && s.Good()
    ensures var next := Round(s.data, s.pos, tok);
            && s == StreamState(s.data, s.pos, false, false)
            && LoopCursors(s, tok) == [s.pos] + LoopCursors(next.after, next.token)
            && SkipComments(s, tok).skipped == [tok] + SkipComments(next.after, next.token).skipped
            && SkipComments(s, tok).after == SkipComments(next.after, next.token).after
            && SkipComments(s, tok).token == SkipComments(next.after, next.token).token
  {
  }

  /**
   The loop's cursors: one per skipped comment, starting at the entry
   cursor and strictly increasing.
   */
  lemma {:induction false} CursorsIncrease(s: StreamState, tok: string)
    requires s.Valid()
    ensures |LoopCursors(s, tok)| == |SkipComments(s, tok).skipped|
    ensures var c := LoopCursors(s, tok);
            && (|c| > 0 ==> c[0] == s.pos)
            && (forall k :: 0 <= k < |c| ==> s.pos <= c[k] <= |s.data|)
            && (forall k :: 0 < k < |c| ==> c[k - 1] < c[k])
    decreases Budget(s)
  {
    if IsComment(tok) && s.Good() {
      var next := Round(s.data, s.pos, tok);
      RoundUnfolds(s, tok);
      CursorsIncrease(next.after, next.token);
      var c := LoopCursors(s, tok);
      var rc := LoopCursors(next.after, next.token);
      if rc != [] {
        assert next.after.Good();
        forall k | 0 < k < |c|
          ensures c[k - 1] < c[k]
        {
          assert c[k] == rc[k - 1];
        }
      }
    }
  }

  /**
   Every comment the loop skips after the first is the word the round
   before it read, right after the line that round discarded.
   */
  lemma {:induction false} SkippedAreReadWords(s: StreamState, tok: string)
    requires s.Valid()
    ensures var c := LoopCursors(s, tok);
            var r := SkipComments(s, tok);
            && |c| == |r.skipped|
            && (forall k :: 0 <= k < |c| ==> c[k] <= |s.data|)
            && (forall k :: 0 < k < |c| ==> ReadAfterLine(s.data, c[k - 1], c[k], r.skipped[k]))
    decreases Budget(s)
  {
    CursorsIncrease(s, tok);
    if IsComment(tok) && s.Good() {
      var next := Round(s.data, s.pos, tok);
      RoundUnfolds(s, tok);
      SkippedAreReadWords(next.after, next.token);
      CursorsIncrease(next.after, next.token);
      var c := LoopCursors(s, tok);
      var rc := LoopCursors(next.after, next.token);
      var skipped := SkipComments(s, tok).skipped;
      var rest := SkipComments(next.after, next.token).skipped;
      if rc != [] {
        assert next.after.Good();
        RoundReadsWord(s.data, s.pos, tok);
        assert ReadAfterLine(s.data, c[0], c[1], skipped[1]);
        forall k | 1 < k < |c|
          ensures ReadAfterLine(s.data, c[k - 1], c[k], skipped[k])
        {
          assert c[k - 1] == rc[k - 2] && c[k] == rc[k - 1] && skipped[k] == rest[k - 1];
        }
      }
    }
  }

  /**
   The loop ends in exactly the stream and `instr` that one round from
   its last cursor, on its last skipped comment, leaves.
   */
  lemma {:induction false} LoopEndsWithRound(s: StreamState, tok: string)
    requires s.Valid()
    ensures var c := LoopCursors(s, tok);
            var r := SkipComments(s, tok);
            && |c| == |r.skipped|
            && (forall k :: 0 <= k < |c| ==> c[k] <= |s.data|)
            && (|c| > 0 ==> Read(r.after, r.token) == Round(s.data, c[|c| - 1], r.skipped[|c| - 1]))
    decreases Budget(s)
  {
    CursorsIncrease(s, tok);
    if IsComment(tok) && s.Good() {
      var next := Round(s.data, s.pos, tok);
      RoundUnfolds(s, tok);
      LoopEndsWithRound(next.after, next.token);
      CursorsIncrease(next.after, next.token);
      var c := LoopCursors(s, tok);
      var rc := LoopCursors(next.after, next.token);
      var rest := SkipComments(next.after, next.token);
      if rc != [] {
        assert c[|c| - 1] == rc[|rc| - 1];
        assert SkipComments(s, tok).skipped[|c| - 1] == rest.skipped[|rc| - 1];
      } else {
        assert rest == Skip(next.after, next.token, []);
      }
    }
  }

  /** The loop cursors of a whole call: none when the loop is never entered. */
  ghost function CallCursors(s: StreamState): seq<nat>
    requires s.Valid()
  {
    if s.Good() then LoopCursors(FirstToken(s).after, FirstToken(s).token) else []
  }

  /**
   Each call consumes, in order, the comment tokens it skips with the
   rest of their lines, and at most one token after the last of them:
   the first skipped comment is the first word of the input, each later
   one is the word right after the line the previous one started, the
   cursors strictly increase, and the call stops, with the token it
   converts, where one more round from the last comment's cursor stops.
   */
  lemma {:induction false} SkippedInInput<T>(s: StreamState, output: T, convert: (T, string) -> T)
    requires s.Valid()
    ensures var r := GetParamOutcome(s, output, convert);
            var c := CallCursors(s);
            && |c| == |r.skipped|
            && (forall k :: 0 <= k < |c| ==> s.pos <= c[k] <= |s.data|)
            && (forall k :: 0 < k < |c| ==> c[k - 1] < c[k])
    ensures var r := GetParamOutcome(s, output, convert);
            var c := CallCursors(s);
            |c| > 0 ==> && WordAtCursor(s.data, s.pos, c[0], r.skipped[0])
                        && AllSpace(s.data, s.pos, c[0] - |r.skipped[0]|)
    ensures var r := GetParamOutcome(s, output, convert);
            var c := CallCursors(s);
            forall k :: 0 < k < |c| ==> ReadAfterLine(s.data, c[k - 1], c[k], r.skipped[k])
    ensures var r := GetParamOutcome(s, output, convert);
            var c := CallCursors(s);
            |c| > 0 ==> && r.stream == Round(s.data, c[|c| - 1], r.skipped[|c| - 1]).after
                        && (r.ok ==> r.converted == Some(Round(s.data, c[|c| - 1], r.skipped[|c| - 1]).token))
  {
    if s.Good() {
      var first := FirstToken(s);
      CallFollowsLoop(s, output, convert);
      CursorsIncrease(first.after, first.token);
      SkippedAreReadWords(first.after, first.token);
      LoopEndsWithRound(first.after, first.token);
      if IsComment(first.token) && first.after.Good() {
        FirstWordAtCursor(s);
      }
    }
  }

  /** A round whose read succeeds reads the word after the discarded line. */
  lemma RoundReadsWord(data: seq<char>, p: nat, tok: string)
    requires p <= |data| && Round(data, p, tok).after.Good()
    ensures p < Round(data, p, tok).after.pos
    ensures ReadAfterLine(data, p, Round(data, p, tok).after.pos, Round(data, p, tok).token)
  {
    var ign := Ignored(StreamState(data, p, false, false), CommentLineLimit, '\n');
    ExtractedOnGood(ign, tok);
    assert !AllSpace(data, ign.pos, |data|);
  }

  /** A first token that is not empty is the first word of the input. */
  lemma FirstWordAtCursor(s: StreamState)
    requires s.Valid() && s.Good() && FirstToken(s).token != ""
    ensures WordAtCursor(s.data, s.pos, FirstToken(s).after.pos, FirstToken(s).token)
    ensures AllSpace(s.data, s.pos, FirstToken(s).after.pos - |FirstToken(s).token|)
  {
    ExtractedOnGood(s, "");
    assert !AllSpace(s.data, s.pos, |s.data|);
  }

  /**
   Once the loop has been entered, a call skips what the loop skips,
   leaves the stream where the loop stops, and converts the loop's final
   token when it succeeds.
   */
  lemma CallFollowsLoop<T>(s: StreamState, output: T, convert: (T, string) -> T)
    requires s.Valid() && s.Good()
    ensures var r := GetParamOutcome(s, output, convert);
            var loop := LoopExit(s);
            && (CallCursors(s) == [] ==> r.skipped == [])
            && (CallCursors(s) != [] ==> && r.skipped == loop.skipped && r.stream == loop.after
                                         && (r.ok ==> r.converted == Some(loop.token)))
  {
    var first := FirstToken(s);
    if IsComment(first.token) && first.after.Good() {
      assert first.token != "";
    }
  }

  /** Whitespace to the end stays whitespace to the end from a later position. */
  lemma AllSpaceSuffix(data: seq<char>, i: nat, j: nat)
    requires i <= j <= |data| && AllSpace(data, i, |data|)
    ensures AllSpace(data, j, |data|)
  {
  }
}

/**
 A model of the part of a C++ `std::istream` (an `std::ifstream` over a
 file's contents) that the track parameter reader uses: formatted string
 extraction `is >> str`, `is.ignore(n, delim)` and `is.good()`, following
 the semantics ISO/IEC 14882 gives them in [istream::sentry],
 [string.io] and [istream.unformatted].

 The stream is the character sequence of the file, one `char` per byte
 as in C++ (so a UTF-8 file appears byte by byte, and `ignore` counts
 bytes), a cursor into it and the `eofbit` and `failbit` state flags; `badbit` (an I/O error of the
 underlying buffer) cannot arise over an in-memory sequence and is not
 modelled.
 */
module Streams {

  /** Whitespace as classified by `isspace` in the classic "C" locale. */
  predicate IsSpace(c: char) {
    c == ' ' || c == '\t' || c == '\n' || c == '\U{000B}' || c == '\U{000C}' || c == '\r'
  }

  /** Every character of `data[i..j]` is whitespace. */
  ghost predicate AllSpace(data: seq<char>, i: nat, j: nat)
    requires i <= j <= |data|
  {
    forall k :: i <= k < j ==> IsSpace(data[k])
  }

  /** A word: a non-empty run of non-whitespace characters. */
  ghost predicate IsWord(t: string) {
    |t| > 0 && forall k :: 0 <= k < |t| ==> !IsSpace(t[k])
  }

  /** The value of a stream: its contents, the cursor and the state flags. */
  datatype StreamState = StreamState(data: seq<char>, pos: nat, eof: bool, fail: bool) {
    ghost predicate Valid() { pos <= |data| }

    /** `good()`: neither eofbit nor failbit is set. */
    predicate Good() { !eof && !fail }
  }

  /** A stream freshly opened on `contents`. */
  function Opened(contents: seq<char>): (s: StreamState)
    ensures s.Valid() && s.Good() && s.data == contents && s.pos == 0
  {
    StreamState(contents, 0, false, false)
  }

  /**
   Termination measure for reading loops: a good stream has all its
   remaining characters plus one to spend; a stream that is not good has
   nothing.
   */
  function Budget(s: StreamState): nat
    requires s.Valid()
  {
    if s.Good() then |s.data| - s.pos + 1 else 0
  }

  /**
   The position of the first non-whitespace character at or after `p`,
   or `|data|` when only whitespace remains: where the sentry of a
   formatted input function stops skipping.
   */
  function SkipSpace(data: seq<char>, p: nat): (r: nat)
    requires p <= |data|
    ensures p <= r <= |data|
    ensures AllSpace(data, p, r)
    ensures r == |data| || !IsSpace(data[r])
    decreases |data| - p
  {
    if p == |data| || !IsSpace(data[p]) then p else SkipSpace(data, p + 1)
  }

  /** The end of the maximal run of non-whitespace characters that starts at `p`. */
  function WordEnd(data: seq<char>, p: nat): (r: nat)
    requires p <= |data|
    ensures p <= r <= |data|
    ensures forall k :: p <= k < r ==> !IsSpace(data[k])
    ensures r == |data| || IsSpace(data[r])
    decreases |data| - p
  {
    if p == |data| || IsSpace(data[p]) then p else WordEnd(data, p + 1)
  }

  /** The stream after an extraction and the string the extraction leaves behind. */
  datatype Read = Read(after: StreamState, token: string)

  /**
   `s >> str` for an `std::string` `str`. The sentry fails, sets failbit
   and leaves `str` untouched when the stream is not good or when
   skipping whitespace reaches the end (which also sets eofbit).
   Otherwise `str` is replaced by the maximal run of non-whitespace
   characters, which is never empty since the sentry stopped on one, and
   eofbit is set when that run reaches the end.
   */
  function Extracted(s: StreamState, str: string): (r: Read)
    requires s.Valid()
    ensures r.after.Valid() && r.after.data == s.data && s.pos <= r.after.pos
    ensures r.after.Good() ==> s.pos < r.after.pos
    ensures !s.Good() ==> r == Read(s.(fail := true), str)
    // the string changes only to a word
    ensures r.token == str || IsWord(r.token)
  {
    if !s.Good() then
      Read(s.(fail := true), str)
    else
      var start := SkipSpace(s.data, s.pos);
      if start == |s.data| then
        Read(s.(pos := start, eof := true, fail := true), str)
      else
        var end := WordEnd(s.data, start);
        assert !IsSpace(s.data[start]);
        Read(s.(pos := end, eof := end == |s.data|), s.data[start..end])
  }

  /**
   What `Extracted` does on a good stream: with only whitespace left it
   consumes it, sets eofbit and failbit and leaves the string untouched;
   otherwise it skips the whitespace and reads the maximal word that
   follows, setting eofbit exactly when the word reaches the end.
   */
  lemma ExtractedOnGood(s: StreamState, str: string)
    requires s.Valid() && s.Good()
    ensures var r := Extracted(s, str);
            AllSpace(s.data, s.pos, |s.data|) ==>
              r == Read(s.(pos := |s.data|, eof := true, fail := true), str)
    ensures var r := Extracted(s, str);
            !AllSpace(s.data, s.pos, |s.data|) ==>
              && IsWord(r.token)
              && !r.after.fail
              && (r.after.eof <==> r.after.pos == |s.data|)
              && |r.token| <= r.after.pos - s.pos
              && s.data[r.after.pos - |r.token|..r.after.pos] == r.token
              && AllSpace(s.data, s.pos, r.after.pos - |r.token|)
              && (r.after.pos == |s.data| || IsSpace(s.data[r.after.pos]))
  {
    var start := SkipSpace(s.data, s.pos);
    if start < |s.data| {
      var end := WordEnd(s.data, start);
      assert !IsSpace(s.data[start]);
      assert Extracted(s, str).token == s.data[start..end];
    }
  }

  /**
   The extraction loop of `ignore` once its sentry has succeeded, with a
   budget of `n` characters: stop when the budget is spent; otherwise at
   the end of the input, setting eofbit; otherwise extract one character
   and stop if it is the delimiter.
   */
  function IgnoreFrom(s: StreamState, n: nat, delim: char): (r: StreamState)
    requires s.Valid()
    ensures r.Valid() && r.data == s.data && r.fail == s.fail
    ensures s.pos <= r.pos <= s.pos + n
    decreases n
  {
    if n == 0 then s
    else if s.pos == |s.data| then s.(eof := true)
    else if s.data[s.pos] == delim then s.(pos := s.pos + 1)
    else IgnoreFrom(s.(pos := s.pos + 1), n - 1, delim)
  }

  /**
   Where `IgnoreFrom` stops: nothing before the last character it
   extracts is the delimiter; within budget and before the end it stops
   right after the delimiter; and it sets eofbit exactly when it reaches
   the end with budget left and no delimiter extracted.
   */
  lemma {:induction false} IgnoreFromStops(s: StreamState, n: nat, delim: char)
    requires s.Valid()
    ensures var r := IgnoreFrom(s, n, delim);
            && (forall k :: s.pos <= k < r.pos - 1 ==> s.data[k] != delim)
            && (r.pos < s.pos + n && r.pos < |s.data| ==> s.pos < r.pos && s.data[r.pos - 1] == delim)
            && (r.eof <==> s.eof || (r.pos == |s.data| && r.pos < s.pos + n
                                     && (r.pos == s.pos || s.data[r.pos - 1] != delim)))
    decreases n
  {
    if n > 0 && s.pos < |s.data| && s.data[s.pos] != delim {
      IgnoreFromStops(s.(pos := s.pos + 1), n - 1, delim);
    }
  }

  /**
   With the first delimiter at `d`, within budget, `IgnoreFrom` stops
   right after it and sets no flag.
   */
  lemma {:induction false} IgnoreThroughDelimiter(s: StreamState, n: nat, delim: char, d: nat)
    requires s.Valid() && s.pos <= d < |s.data| && d < s.pos + n
    requires s.data[d] == delim
    requires forall k :: s.pos <= k < d ==> s.data[k] != delim
    ensures IgnoreFrom(s, n, delim) == s.(pos := d + 1)
    decreases n
  {
    if s.pos < d {
      IgnoreThroughDelimiter(s.(pos := s.pos + 1), n - 1, delim, d);
    }
  }

  /**
   `s.ignore(n, delim)`: an unformatted input function, whose sentry
   only sets failbit when the stream is not good; it never sets failbit
   for extracting nothing.
   */
  function Ignored(s: StreamState, n: nat, delim: char): (r: StreamState)
    requires s.Valid()
    ensures r.Valid() && r.data == s.data && s.pos <= r.pos <= s.pos + n
    ensures !s.Good() ==> r == s.(fail := true)
    ensures s.Good() ==> r == IgnoreFrom(s, n, delim)
  {
    if !s.Good() then s.(fail := true) else IgnoreFrom(s, n, delim)
  }

  /** An input stream whose cursor and state flags change as it is read. */
  class IStream {
    const data: seq<char>
    var pos: nat
    var eof: bool
    var fail: bool

    ghost predicate Valid()
      reads this
    {
      pos <= |data|
    }

    /** The current value of the stream. */
    function State(): (s: StreamState)
      reads this
      ensures s.data == data && s.pos == pos && s.eof == eof && s.fail == fail
    {
      StreamState(data, pos, eof, fail)
    }

    /** Opens a stream on `contents`. */
    constructor (contents: seq<char>)
      ensures Valid() && State() == Opened(contents)
    {
      data := contents;
      pos, eof, fail := 0, false, false;
    }

    /** `good()`. */
    function Good(): (g: bool)
      reads this
      ensures g == State().Good()
    {
      !eof && !fail
    }

    /** `this >> str`: returns the new value of `str`. */
    method Extract(str: string) returns (token: string)
      requires Valid()
      modifies this
      ensures Valid()
      ensures Read(State(), token) == Extracted(old(State()), str)
    {
      if !Good() {
        fail := true;
        return str;
      }
      // the sentry skips whitespace
      var p := pos;
      while p < |data| && IsSpace(data[p])
        invariant pos <= p <= |data|
        invariant SkipSpace(data, p) == SkipSpace(data, pos)
      {
        p := p + 1;
      }
      if p == |data| {
        pos, eof, fail := p, true, true;
        return str;
      }
      var start := p;
      while p < |data| && !IsSpace(data[p])
        invariant start <= p <= |data|
        invariant WordEnd(data, p) == WordEnd(data, start)
      {
        p := p + 1;
      }
      token := data[start..p];
      pos := p;
      if p == |data| {
        eof := true;
      }
    }

    /** `ignore(n, delim)`. */
    method Ignore(n: nat, delim: char)
      requires Valid()
      modifies this
      ensures Valid()
      ensures State() == Ignored(old(State()), n, delim)
    {
      if !Good() {
        fail := true;
        return;
      }
      var p, budget := pos, n;
      while budget > 0 && p < |data| && data[p] != delim
        invariant pos <= p <= |data|
        invariant IgnoreFrom(State().(pos := p), budget, delim) == IgnoreFrom(State(), n, delim)
      {
        p, budget := p + 1, budget - 1;
      }
      if budget > 0 {
        if p == |data| {
          eof := true;
        } else {
          p := p + 1;
        }
      }
      pos := p;
    }
  }
}

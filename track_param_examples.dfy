/**
 A worked case of the parameter reader on a small parameter file: a
 comment line, then a key and its value.
 */
module TrackParamExamples {
  import opened Streams
  import opened TrackParam

  const Sample: string := "# skybox\nvertical 1\n"

  /** Converting keeps the token itself, as `sstr >> output` does for a `std::string`. */
  function AsString(old_output: string, token: string): string {
    token
  }

  /** The first extraction yields the bare `#` that opens the comment. */
  lemma FirstReadOfSample()
    ensures FirstToken(Opened(Sample)) == Read(Opened(Sample).(pos := 1), "#")
  {
    assert SkipSpace(Sample, 0) == 0;
    assert WordEnd(Sample, 1) == 1;
  }

  /** From the start of the second line, the extraction yields the key. */
  lemma WordAfterComment()
    ensures Extracted(Opened(Sample).(pos := 9), "#") == Read(Opened(Sample).(pos := 17), "vertical")
  {
    assert SkipSpace(Sample, 9) == 9;
    assert WordEnd(Sample, 17) == 17;
    assert WordEnd(Sample, 13) == 17;
    assert WordEnd(Sample, 9) == 17;
  }

  /** Discarding the rest of the comment line and reading again yields the key. */
  lemma SecondReadOfSample()
    ensures Extracted(Ignored(Opened(Sample).(pos := 1), CommentLineLimit, '\n'), "#")
            == Read(Opened(Sample).(pos := 17), "vertical")
  {
    LineDiscarded(Opened(Sample).(pos := 1), 8);
    WordAfterComment();
  }

  /** The first call skips the comment line and yields the key. */
  lemma SampleKey()
    ensures GetParamOutcome(Opened(Sample), "", AsString)
            == Outcome(true, Opened(Sample).(pos := 17), "vertical", Some("vertical"), ["#"])
  {
    FirstReadOfSample();
    SecondReadOfSample();
  }

  /** The second call, from where the first stopped, yields the value. */
  lemma SampleValue()
    ensures GetParamOutcome(Opened(Sample).(pos := 17), "", AsString)
            == Outcome(true, Opened(Sample).(pos := 19), "1", Some("1"), [])
  {
    assert SkipSpace(Sample, 18) == 18;
    assert SkipSpace(Sample, 17) == 18;
    assert WordEnd(Sample, 19) == 19;
    assert WordEnd(Sample, 18) == 19;
    assert Sample[18..19] == "1";
  }

  /** The third call finds only the final newline: false, and the stream is at its end. */
  lemma SampleExhausted()
    ensures GetParamOutcome(Opened(Sample).(pos := 19), "1", AsString)
            == Outcome(false, Opened(Sample).(pos := 20, eof := true, fail := true), "1", None, [])
  {
    assert SkipSpace(Sample, 20) == 20;
    assert SkipSpace(Sample, 19) == 20;
  }
}

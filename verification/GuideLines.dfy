/**
  How single lines of a guide are read, in terms of their text: what opens and closes a
  comment, a fence and a command block. Sections 4.5 and 4.6 of CommonMark, except that a
  comment or a fence may be indented at will and nothing closes at the end of the file.
*/
module GuideLines {
  import opened Text
  import opened GuideScanner

  function Ticks(n: nat): string {
    seq(n, _ => '`')
  }

  lemma {:induction false} BacktickRunIs(n: nat, rest: string)
    requires rest == "" || rest[0] != '`'
    ensures BacktickRun(Ticks(n) + rest) == n
  {
    if n == 0 {
      assert Ticks(n) + rest == rest;
    } else {
      assert (Ticks(n) + rest)[1..] == Ticks(n - 1) + rest;
      BacktickRunIs(n - 1, rest);
    }
  }

  lemma {:induction false} RunSplits(s: string)
    ensures s[..BacktickRun(s)] == Ticks(BacktickRun(s))
    ensures BacktickRun(s) < |s| ==> s[BacktickRun(s)] != '`'
  {
    if s != "" && s[0] == '`' {
      RunSplits(s[1..]);
      assert s[..BacktickRun(s)] == ['`'] + s[1..][..BacktickRun(s[1..])];
    }
  }

  /** The text begins with at least three backticks, exactly `n`, and no other backtick follows. */
  ghost predicate FenceOf(text: string, n: nat) {
    n >= 3 && exists info: string :: '`' !in info && text == Ticks(n) + info
  }

  /** A comment opens on a line that begins with its mark and does not hold the closing one. */
  lemma OpensCommentIff(line: string)
    ensures Opens(line) == OpensComment <==> "<!--" <= TrimSpace(line) && !Holds(line, "-->")
  {
    ContainsIff(line, COMMENT_CLOSE);
  }

  lemma OpensCommandIff(line: string)
    ensures Opens(line) == OpensCommand <==> TrimSpace(line) == "```json narvi-command"
  {
    assert FENCE_OPEN[0] != COMMENT_OPEN[0];
  }

  /** A fence opens on any other line of three or more backticks and an info string without one. */
  lemma OpensFenceIff(line: string, n: nat)
    ensures Opens(line) == OpensFence(n) <==> FenceOf(TrimSpace(line), n) && TrimSpace(line) != "```json narvi-command"
  {
    var text := TrimSpace(line);
    var run := BacktickRun(text);
    RunSplits(text);
    assert text == Ticks(run) + text[run..];
    OneTick(text[run..]);
    if FenceOf(text, n) {
      var info: string :| '`' !in info && text == Ticks(n) + info;
      assert info == "" || info[0] in info;
      BacktickRunIs(n, info);
      assert text[n..] == info;
      assert text[0] == '`';
    }
    if Opens(line) == OpensFence(n) {
      assert FenceOf(text, n);
    }
  }

  lemma {:induction false} OneTick(s: string)
    ensures Contains(s, "`") <==> '`' in s
  {
    if s != "" {
      OneTick(s[1..]);
      assert s == [s[0]] + s[1..];
      assert "`" <= s <==> s[0] == '`';
    }
  }

  /** A comment ends on the line that holds its closing mark. */
  lemma ClosesCommentIff(line: string)
    ensures Closes(OpensComment, line) <==> Holds(line, "-->")
  {
    ContainsIff(line, COMMENT_CLOSE);
  }

  /** A fence ends on a line of backticks only, at least as many as opened it. */
  lemma ClosesFenceIff(line: string, n: nat)
    requires n >= 1
    ensures Closes(OpensFence(n), line) <==> exists m: nat :: m >= n && TrimSpace(line) == Ticks(m)
  {
    var text := TrimSpace(line);
    if Closes(OpensFence(n), line) {
      assert text == Ticks(|text|);
    }
    if m: nat :| m >= n && text == Ticks(m) {
      assert |text| == m;
    }
  }

  lemma ClosesCommandIff(line: string)
    ensures Closes(OpensCommand, line) <==> TrimSpace(line) == "```"
  {
  }
}

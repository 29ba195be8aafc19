/**
 * The `profile-tips` endpoint: the language model's reply is split into lines and the
 * non-blank ones become tips; without any, the local rule table answers.
 */
module Reply {
  import opened Common
  import opened Text
  import Tips

  /** The characters `lstrip('-• ')` removes. */
  function BulletChars(): set<char> { {'-', '•', ' '} }

  /** `line.lstrip('-• ').strip()`. */
  function CleanLine(line: string): (r: string)
    ensures Stripped(r)
  {
    Strip(LStripChars(line, BulletChars()))
  }

  /**
   * A cleaned line is a middle part of the line: what is dropped in front is bullets and
   * white space, what is dropped behind is white space.
   */
  lemma CleanLineKeepsMiddle(line: string)
    ensures exists i, j :: 0 <= i <= j <= |line| && CleanLine(line) == line[i..j] && Dropped(line, i, j)
  {
    var i0 := BulletsDropped(line);
    var t := line[i0..];
    var i1, j1 := BlanksDropped(t);
    MiddleOfSuffix(line, i0, i1, j1);
    assert CleanLine(line) == Strip(t) == t[i1..j1] == line[i0 + i1..i0 + j1];
  }

  /** The `lstrip('-• ')` step: the line from some index on, with only bullets before it. */
  lemma BulletsDropped(line: string) returns (i0: nat)
    ensures i0 <= |line| && LStripChars(line, BulletChars()) == line[i0..]
    ensures forall k :: 0 <= k < i0 ==> line[k] in BulletChars()
  {
    LStripCharsDrops(line, BulletChars());
    i0 :| 0 <= i0 <= |line| && LStripChars(line, BulletChars()) == line[i0..]
      && (forall k :: 0 <= k < i0 ==> line[k] in BulletChars());
  }

  /** The `strip()` step: a middle slice of `t` with blank text on both sides. */
  lemma BlanksDropped(t: string) returns (i1: nat, j1: nat)
    ensures i1 <= j1 <= |t| && Strip(t) == t[i1..j1]
    ensures Blank(t[..i1]) && Blank(t[j1..])
  {
    StripKeepsMiddle(t);
    i1, j1 :| 0 <= i1 <= j1 <= |t| && Strip(t) == t[i1..j1] && Blank(t[..i1]) && Blank(t[j1..]);
  }

  /** What cleaning may drop: bullets and white space before `i`, white space from `j` on. */
  predicate Dropped(line: string, i: int, j: int)
    requires 0 <= i <= j <= |line|
  {
    && (forall k :: 0 <= k < i ==> line[k] in BulletChars() || IsPySpace(line[k]))
    && Blank(line[j..])
  }

  lemma MiddleOfSuffix(line: string, i0: nat, i1: nat, j1: nat)
    requires i0 <= |line| && i1 <= j1 <= |line| - i0
    requires forall k :: 0 <= k < i0 ==> line[k] in BulletChars()
    requires Blank(line[i0..][..i1]) && Blank(line[i0..][j1..])
    ensures line[i0..][i1..j1] == line[i0 + i1..i0 + j1]
    ensures Dropped(line, i0 + i1, i0 + j1)
  {
    var t := line[i0..];
    assert t[j1..] == line[i0 + j1..];
    forall k | 0 <= k < i0 + i1
      ensures line[k] in BulletChars() || IsPySpace(line[k])
    {
      if k >= i0 {
        assert t[..i1][k - i0] == line[k];
      }
    }
  }

  /** A tip that is already clean: not empty, no white space at its ends, no bullet in front. */
  predicate CleanTip(x: string) {
    x != "" && Stripped(x) && x[0] !in BulletChars()
  }

  lemma CleanTipUnchanged(x: string)
    requires CleanTip(x)
    ensures Strip(x) == x && CleanLine(x) == x
  {
    StripStripped(x);
    assert LStripChars(x, BulletChars()) == x;
  }

  /** The cleaned form of every line whose `strip()` is not empty, in order. */
  function TipLines(lines: seq<string>): (r: seq<string>)
    ensures |r| <= |lines|
    ensures forall k :: 0 <= k < |r| ==> Stripped(r[k])
  {
    if lines == [] then []
    else (if Strip(lines[0]) != "" then [CleanLine(lines[0])] else []) + TipLines(lines[1..])
  }

  /** The tips read from the model's reply text: at most five, each stripped. */
  function ParseTips(text: string): (r: seq<string>)
    ensures |r| <= Tips.MaxTips
    ensures forall k :: 0 <= k < |r| ==> Stripped(r[k])
  {
    var t := TipLines(Split(Strip(text), '\n'));
    t[..Min(Tips.MaxTips, |t|)]
  }

  /**
   * Tips written one per line are read back in order, the first five of them: the
   * parser inverts writing clean, single-line tips one per line.
   */
  lemma ParseTipsRoundTrip(xs: seq<string>)
    requires forall k :: 0 <= k < |xs| ==> CleanTip(xs[k]) && '\n' !in xs[k]
    ensures ParseTips(Join("\n", xs)) == xs[..Min(Tips.MaxTips, |xs|)]
  {
    var none: seq<string> := seq(|xs|, k => "");
    var lines := WithBullets(none, xs);
    forall k | 0 <= k < |xs|
      ensures BulletMark(none[k]) && lines[k] == xs[k]
    {
      assert none[k] == "" && "" + xs[k] == xs[k];
    }
    assert lines == xs;
    BulletedRoundTrip(none, xs);
  }

  /** A join of non-empty lines starts as its first line starts and ends as its last line ends. */
  lemma JoinLinesEnds(lines: seq<string>)
    requires |lines| >= 1 && forall k :: 0 <= k < |lines| ==> lines[k] != ""
    ensures var j, first, last := Join("\n", lines), lines[0], lines[|lines| - 1];
      j != "" && j[0] == first[0] && j[|j| - 1] == last[|last| - 1]
  {
    JoinEnds("\n", lines);
  }

  /** A text that starts as one stripped text starts and ends as another is stripped. */
  lemma StrippedBetween(text: string, a: string, b: string)
    requires a != "" && b != "" && Stripped(a) && Stripped(b)
    requires text != "" && text[0] == a[0] && text[|text| - 1] == b[|b| - 1]
    ensures Stripped(text)
  {
  }

  lemma ParseTipsOfLines(text: string, lines: seq<string>, xs: seq<string>)
    requires Strip(text) == text && Split(text, '\n') == lines && TipLines(lines) == xs
    ensures ParseTips(text) == xs[..Min(Tips.MaxTips, |xs|)]
  {
  }

  /**
   * A bullet written in front of a tip: bullet characters only, and not opening with a
   * space, as "- " and "• " are.
   */
  predicate BulletMark(b: string) {
    (forall k :: 0 <= k < |b| ==> b[k] in BulletChars()) && (b == "" || b[0] != ' ')
  }

  /** Each tip with its bullet in front. */
  function WithBullets(bs: seq<string>, xs: seq<string>): (r: seq<string>)
    requires |bs| == |xs|
    ensures |r| == |xs| && forall k :: 0 <= k < |r| ==> r[k] == bs[k] + xs[k]
  {
    seq(|xs|, k requires 0 <= k < |xs| => bs[k] + xs[k])
  }

  /** `lstrip('-• ')` drops a leading run of bullet characters in front of a tip that opens with none. */
  lemma {:induction false} LStripBullets(b: string, x: string)
    requires forall k :: 0 <= k < |b| ==> b[k] in BulletChars()
    requires x == "" || x[0] !in BulletChars()
    ensures LStripChars(b + x, BulletChars()) == x
  {
    if b == "" {
      assert b + x == x;
    } else {
      assert (b + x)[0] == b[0] && (b + x)[1..] == b[1..] + x;
      LStripBullets(b[1..], x);
    }
  }

  /** A bulleted clean tip is a stripped, non-blank line whose cleaned form is the tip. */
  lemma BulletedLine(b: string, x: string)
    requires BulletMark(b) && CleanTip(x)
    ensures var line := b + x;
      line != "" && Stripped(line) && !Blank(line) && '\n' !in b && CleanLine(line) == x
  {
    var line := b + x;
    assert line[|line| - 1] == x[|x| - 1];
    assert line[0] == (if b == "" then x[0] else b[0]);
    assert '\n' !in BulletChars() && !IsPySpace('-') && !IsPySpace('•');
    LStripBullets(b, x);
    CleanTipUnchanged(x);
  }

  /** Bulleted clean lines are each read back as the tip they hold. */
  lemma {:induction false} TipLinesOfBulletedTips(bs: seq<string>, xs: seq<string>)
    requires |bs| == |xs|
    requires forall k :: 0 <= k < |xs| ==> BulletMark(bs[k]) && CleanTip(xs[k])
    ensures TipLines(WithBullets(bs, xs)) == xs
  {
    if xs != [] {
      var lines, rest := WithBullets(bs, xs), WithBullets(bs[1..], xs[1..]);
      BulletedLine(bs[0], xs[0]);
      assert lines[0] == bs[0] + xs[0] && Strip(lines[0]) != "";
      assert lines[1..] == rest;
      TipLinesOfBulletedTips(bs[1..], xs[1..]);
      assert TipLines(lines) == [xs[0]] + TipLines(rest);
      assert [xs[0]] + xs[1..] == xs;
    }
  }

  /**
   * A reply of bulleted tips, one per line, as the prompt asks for, is read back as the
   * tips without their bullets, in order, the first five of them.
   */
  lemma BulletedRoundTrip(bs: seq<string>, xs: seq<string>)
    requires |bs| == |xs|
    requires forall k :: 0 <= k < |xs| ==> BulletMark(bs[k]) && CleanTip(xs[k]) && '\n' !in xs[k]
    ensures ParseTips(Join("\n", WithBullets(bs, xs))) == xs[..Min(Tips.MaxTips, |xs|)]
  {
    var lines := WithBullets(bs, xs);
    var text := Join("\n", lines);
    if xs == [] {
      assert text == "";
      EmptyReplyNoTips();
    } else {
      forall k | 0 <= k < |lines|
        ensures lines[k] != "" && Stripped(lines[k]) && '\n' !in lines[k]
      {
        BulletedLine(bs[k], xs[k]);
      }
      var first, last := lines[0], lines[|lines| - 1];
      JoinLinesEnds(lines);
      StrippedBetween(text, first, last);
      StripStripped(text);
      assert "\n" == ['\n'];
      SplitJoin(lines, '\n');
      TipLinesOfBulletedTips(bs, xs);
      ParseTipsOfLines(text, lines, xs);
    }
  }

  lemma EmptyReplyNoTips()
    ensures ParseTips("") == []
  {
    assert Strip("") == "";
    assert Split("", '\n') == [""];
    assert TipLines([""]) == [];
  }

  /** A reply yields no tip exactly when it is blank. */
  lemma ParseTipsEmpty(text: string)
    ensures ParseTips(text) == [] <==> Blank(text)
  {
    var s := Strip(text);
    var lines := Split(s, '\n');
    if !Blank(text) {
      assert s != [] && !IsPySpace(s[0]);
      assert lines[0][0] == s[0];
      assert !Blank(lines[0]);
    } else {
      assert lines == [""];
    }
  }

  /** A bullet with nothing after it is read as an empty tip, not as no tip. */
  lemma BareBulletIsEmptyTip()
    ensures ParseTips("- ") == [""]
    ensures ParseTips("-") == [""]
  {
    assert IsPySpace(' ') && !IsPySpace('-');
    assert Strip("- ") == "-";
    assert Strip("-") == "-";
    var rest := Split("-"[1..], '\n');
    assert "-"[1..] == "" && rest == [""];
    assert Split("-", '\n') == [['-'] + rest[0]] + rest[1..];
    assert ['-'] + rest[0] == "-" && rest[1..] == [];
    assert Split("-", '\n') == ["-"];
    assert LStripChars("-", BulletChars()) == "";
  }

  /**
   * The `profile-tips` endpoint once the profile is known. `reply` is the model's reply
   * text (`resp.text or ''`), or `None` when no model is configured or the call failed.
   * The reply's tips are returned unless there are none; then the local rules answer.
   */
  method ProfileTips(p: Tips.Profile, reply: Option<string>) returns (tips: seq<string>)
    ensures 1 <= |tips| <= Tips.MaxTips
    ensures reply.Some? && !Blank(reply.value) ==> tips == ParseTips(reply.value)
    ensures reply.None? || Blank(reply.value) ==> tips == Tips.LocalTips(p)
  {
    if reply.Some? {
      var parsed := ParseTips(reply.value);
      ParseTipsEmpty(reply.value);
      if parsed != [] {
        return parsed;
      }
    }
    tips := Tips.ComputeLocalTips(p);
  }
}

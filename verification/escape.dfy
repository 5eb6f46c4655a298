/**
 The failure-log transform of the HTML reporter.

 Every failure-log entry is passed through three global string replacements,
 in this order: `<` becomes `&lt;`, `>` becomes `&gt;`, and every line
 terminator (`\r\n`, `\r` or `\n`, the two-character form preferred) becomes
 the line-break tag `<br />`. The entries of one spec are then written one
 after another, every entry but the first prefixed with a line-break tag.

 `FormatLog` is the three-pass transform as the reporter writes it;
 `EscapeOnePass` is an independent one-pass reference definition, and
 `ThreePassIsOnePass` proves the two agree, so the properties proved about
 the reference carry over to the transform.
 */
module LogEscape {
  import opened Seqs

  /** The line-break markup inserted for every line terminator. */
  const BreakTag: string := "<br />"

  /** One global replacement of the single character `c` by `rep`. */
  function ReplaceChar(s: string, c: char, rep: string): string
    decreases |s|
  {
    if s == [] then []
    else (if s[0] == c then rep else [s[0]]) + ReplaceChar(s[1..], c, rep)
  }

  /** The global replacement of `\r\n`, `\r` and `\n` by the line-break tag.
      At every position the two-character terminator is tried first. */
  function BreakLines(s: string): string
    decreases |s|
  {
    if s == [] then []
    else if |s| >= 2 && s[0] == '\r' && s[1] == '\n' then BreakTag + BreakLines(s[2..])
    else if s[0] == '\r' || s[0] == '\n' then BreakTag + BreakLines(s[1..])
    else [s[0]] + BreakLines(s[1..])
  }

  /** The first two passes: angle brackets become character references. */
  function EscapeAngles(s: string): string
  {
    ReplaceChar(ReplaceChar(s, '<', "&lt;"), '>', "&gt;")
  }

  /** The transform applied to one (already formatted) failure-log entry. It
      reads as the one-pass reference, leaves no line terminator, and every
      `<` or `>` left in it belongs to an inserted line-break tag. */
  function FormatLog(s: string): (r: string)
    ensures r == EscapeOnePass(s)
    ensures '\r' !in r && '\n' !in r
    ensures OnlyBreakTags(r)
  {
    ThreePassIsOnePass(s);
    OnePassHasNoLineTerminators(s);
    OnePassOnlyBreakTags(s);
    BreakLines(EscapeAngles(s))
  }

  /** The markup a single character stands for in the transformed text. */
  function CharMarkup(c: char): string
  {
    if c == '\r' || c == '\n' then BreakTag
    else if c == '<' then "&lt;"
    else if c == '>' then "&gt;"
    else [c]
  }

  /** Reference definition: the same transform, read in a single left-to-right
      pass that consumes `\r\n` as one terminator. */
  function EscapeOnePass(s: string): string
    decreases |s|
  {
    if s == [] then []
    else if |s| >= 2 && s[0] == '\r' && s[1] == '\n' then BreakTag + EscapeOnePass(s[2..])
    else CharMarkup(s[0]) + EscapeOnePass(s[1..])
  }

  /** True when every `<` and `>` of `t` is part of a line-break tag and `t`
      holds no line terminator: `t` splits into line-break tags and single
      characters other than `<`, `>`, `\r` and `\n`. */
  predicate OnlyBreakTags(t: string)
    decreases |t|
  {
    if t == [] then true
    else if t[0] == '<' then |t| >= 6 && t[..6] == BreakTag && OnlyBreakTags(t[6..])
    else t[0] !in ">\r\n" && OnlyBreakTags(t[1..])
  }

  /** Every line terminator (`\r\n`, `\r`, `\n`) written as a single `\n`. */
  function NormalizeNewlines(s: string): string
    decreases |s|
  {
    if s == [] then []
    else if |s| >= 2 && s[0] == '\r' && s[1] == '\n' then "\n" + NormalizeNewlines(s[2..])
    else if s[0] == '\r' then "\n" + NormalizeNewlines(s[1..])
    else [s[0]] + NormalizeNewlines(s[1..])
  }

  /** What a browser shows for the transformed text: the line-break tag is a
      newline and the two character references are the brackets they name. */
  function Unescape(t: string): string
    decreases |t|
  {
    if t == [] then []
    else if |t| >= 6 && t[..6] == BreakTag then "\n" + Unescape(t[6..])
    else if |t| >= 4 && t[..4] == "&lt;" then "<" + Unescape(t[4..])
    else if |t| >= 4 && t[..4] == "&gt;" then ">" + Unescape(t[4..])
    else [t[0]] + Unescape(t[1..])
  }

  /** `Array.prototype.join`: the items with `sep` between neighbours. */
  function Join(items: seq<string>, sep: string): string
    decreases |items|
  {
    if |items| == 0 then []
    else if |items| == 1 then items[0]
    else items[0] + sep + Join(items[1..], sep)
  }

  /** The pieces written one after another, with nothing between them. */
  function Concat(pieces: seq<string>): string
    decreases |pieces|
  {
    if pieces == [] then [] else pieces[0] + Concat(pieces[1..])
  }

  // ---------------------------------------------------------------------------
  // The three passes agree with the one-pass reference

  lemma {:induction false} ReplaceCharAppend(a: string, b: string, c: char, rep: string)
    ensures ReplaceChar(a + b, c, rep) == ReplaceChar(a, c, rep) + ReplaceChar(b, c, rep)
    decreases |a|
  {
    if a == [] {
      assert a + b == b;
    } else {
      assert (a + b)[0] == a[0];
      assert (a + b)[1..] == a[1..] + b;
      ReplaceCharAppend(a[1..], b, c, rep);
    }
  }

  lemma {:induction false} ReplaceCharAbsent(s: string, c: char, rep: string)
    requires c !in s
    ensures ReplaceChar(s, c, rep) == s
    decreases |s|
  {
    if s != [] {
      ReplaceCharAbsent(s[1..], c, rep);
    }
  }

  /** The first two passes act on one character at a time. */
  lemma EscapeAnglesCons(c: char, rest: string)
    ensures EscapeAngles([c] + rest) ==
      (if c == '<' then "&lt;" else if c == '>' then "&gt;" else [c]) + EscapeAngles(rest)
  {
    ReplaceCharAppend([c], rest, '<', "&lt;");
    var lt := ReplaceChar([c], '<', "&lt;");
    ReplaceCharAppend(lt, ReplaceChar(rest, '<', "&lt;"), '>', "&gt;");
    if c == '<' {
      assert [c][1..] == [];
      assert lt == "&lt;";
      ReplaceCharAbsent("&lt;", '>', "&gt;");
    } else {
      assert lt == [c];
    }
  }

  /** A prefix without line terminators passes through `BreakLines` unchanged. */
  lemma {:induction false} BreakLinesPlainPrefix(p: string, x: string)
    requires '\r' !in p && '\n' !in p
    ensures BreakLines(p + x) == p + BreakLines(x)
    decreases |p|
  {
    if p == [] {
      assert p + x == x;
    } else {
      assert p[0] in p;
      assert (p + x)[0] == p[0];
      assert (p + x)[1..] == p[1..] + x;
      BreakLinesPlainPrefix(p[1..], x);
    }
  }

  /** The three chained replacements agree with the one-pass reading. */
  lemma {:induction false} ThreePassIsOnePass(s: string)
    ensures BreakLines(EscapeAngles(s)) == EscapeOnePass(s)
    decreases |s|
  {
    if s == [] {
      assert EscapeAngles(s) == [];
    } else {
      var c := s[0];
      assert s == [c] + s[1..];
      EscapeAnglesCons(c, s[1..]);
      if |s| >= 2 && c == '\r' && s[1] == '\n' {
        assert s[1..] == ['\n'] + s[2..];
        EscapeAnglesCons('\n', s[2..]);
        var e := EscapeAngles(s[2..]);
        assert EscapeAngles(s) == "\r\n" + e;
        assert ("\r\n" + e)[2..] == e;
        ThreePassIsOnePass(s[2..]);
      } else if c == '\r' || c == '\n' {
        var e := EscapeAngles(s[1..]);
        assert EscapeAngles(s) == [c] + e;
        if c == '\r' && e != [] {
          assert s[1..] == [s[1]] + s[2..];
          EscapeAnglesCons(s[1], s[2..]);
          assert e[0] != '\n';
        }
        assert ([c] + e)[1..] == e;
        ThreePassIsOnePass(s[1..]);
      } else {
        var p := if c == '<' then "&lt;" else if c == '>' then "&gt;" else [c];
        BreakLinesPlainPrefix(p, EscapeAngles(s[1..]));
        ThreePassIsOnePass(s[1..]);
      }
    }
  }

  // ---------------------------------------------------------------------------
  // Properties of the transform

  lemma {:induction false} OnePassHasNoLineTerminators(s: string)
    ensures '\r' !in EscapeOnePass(s) && '\n' !in EscapeOnePass(s)
    decreases |s|
  {
    if |s| >= 2 && s[0] == '\r' && s[1] == '\n' {
      OnePassHasNoLineTerminators(s[2..]);
    } else if s != [] {
      OnePassHasNoLineTerminators(s[1..]);
    }
  }

  lemma {:induction false} OnlyBreakTagsPlainPrefix(p: string, x: string)
    requires forall i :: 0 <= i < |p| ==> p[i] !in "<>\r\n"
    requires OnlyBreakTags(x)
    ensures OnlyBreakTags(p + x)
    decreases |p|
  {
    if p == [] {
      assert p + x == x;
    } else {
      assert p[0] !in "<>\r\n";
      assert (p + x)[0] == p[0];
      assert (p + x)[1..] == p[1..] + x;
      OnlyBreakTagsPlainPrefix(p[1..], x);
    }
  }

  lemma OnlyBreakTagsBreakPrefix(x: string)
    requires OnlyBreakTags(x)
    ensures OnlyBreakTags(BreakTag + x)
  {
    assert (BreakTag + x)[..6] == BreakTag;
    assert (BreakTag + x)[6..] == x;
  }

  lemma {:induction false} OnePassOnlyBreakTags(s: string)
    ensures OnlyBreakTags(EscapeOnePass(s))
    decreases |s|
  {
    if s == [] {
    } else if |s| >= 2 && s[0] == '\r' && s[1] == '\n' {
      OnePassOnlyBreakTags(s[2..]);
      OnlyBreakTagsBreakPrefix(EscapeOnePass(s[2..]));
    } else if s[0] == '\r' || s[0] == '\n' {
      OnePassOnlyBreakTags(s[1..]);
      OnlyBreakTagsBreakPrefix(EscapeOnePass(s[1..]));
    } else {
      OnePassOnlyBreakTags(s[1..]);
      var p := if s[0] == '<' then "&lt;" else if s[0] == '>' then "&gt;" else [s[0]];
      OnlyBreakTagsPlainPrefix(p, EscapeOnePass(s[1..]));
    }
  }

  /** One step of the one-pass reading at a `\r\n` pair. */
  lemma OnePassCrLfHead(s: string)
    requires |s| >= 2 && s[0] == '\r' && s[1] == '\n'
    ensures EscapeOnePass(s) == BreakTag + EscapeOnePass(s[2..])
  {
  }

  /** One step of the one-pass reading at any other character. */
  lemma OnePassCharHead(s: string)
    requires s != [] && !(|s| >= 2 && s[0] == '\r' && s[1] == '\n')
    ensures EscapeOnePass(s) == CharMarkup(s[0]) + EscapeOnePass(s[1..])
  {
  }

  /** A `\r\n` at the head of `a` stays the head of `a + b`. */
  lemma AppendCrLfStep(a: string, b: string)
    requires |a| >= 2 && a[0] == '\r' && a[1] == '\n'
    ensures EscapeOnePass(a + b) == BreakTag + EscapeOnePass(a[2..] + b)
  {
    var ab := a + b;
    assert ab[0] == '\r' && ab[1] == '\n';
    assert ab[2..] == a[2..] + b;
    OnePassCrLfHead(ab);
  }

  /** Any other head character of `a` is read alone in `a + b` too, unless a
      trailing `\r` of `a` would pair with a leading `\n` of `b`. */
  lemma AppendCharStep(a: string, b: string)
    requires a != [] && !(|a| >= 2 && a[0] == '\r' && a[1] == '\n')
    requires !(a[|a| - 1] == '\r' && b != [] && b[0] == '\n')
    ensures EscapeOnePass(a + b) == CharMarkup(a[0]) + EscapeOnePass(a[1..] + b)
  {
    var ab := a + b;
    assert ab[0] == a[0];
    assert |ab| >= 2 ==> ab[1] == (if |a| >= 2 then a[1] else b[0]);
    assert ab[1..] == a[1..] + b;
  }

  /** The transform reads the text left to right: it distributes over a split,
      unless the split falls between the two characters of a `\r\n`. */
  lemma {:induction false} OnePassAppend(a: string, b: string)
    requires !(a != [] && a[|a| - 1] == '\r' && b != [] && b[0] == '\n')
    ensures EscapeOnePass(a + b) == EscapeOnePass(a) + EscapeOnePass(b)
    decreases |a|
  {
    if a == [] {
      assert a + b == b;
    } else if |a| >= 2 && a[0] == '\r' && a[1] == '\n' {
      AppendCrLfStep(a, b);
      OnePassCrLfHead(a);
      OnePassAppend(a[2..], b);
      Regroup(BreakTag, EscapeOnePass(a[2..]), EscapeOnePass(b));
    } else {
      AppendCharStep(a, b);
      OnePassCharHead(a);
      OnePassAppend(a[1..], b);
      Regroup(CharMarkup(a[0]), EscapeOnePass(a[1..]), EscapeOnePass(b));
    }
  }

  /** A `\r\n` pair becomes a single line-break tag, wherever it stands. */
  lemma CrLfIsOneBreak(a: string, b: string)
    ensures FormatLog(a + "\r\n" + b) == FormatLog(a) + BreakTag + FormatLog(b)
  {
    var c := "\r\n" + b;
    var s := a + "\r\n" + b;
    assert s == a + c;
    assert c[2..] == b;
    OnePassCrLfHead(c);
    OnePassAppend(a, c);
    assert EscapeOnePass(s) == EscapeOnePass(a) + BreakTag + EscapeOnePass(b);
  }

  lemma UnescapeBreak(e: string)
    ensures Unescape(BreakTag + e) == "\n" + Unescape(e)
  {
    assert (BreakTag + e)[..6] == BreakTag && (BreakTag + e)[6..] == e;
  }

  lemma UnescapeReference(p: string, e: string)
    requires p == "&lt;" || p == "&gt;"
    ensures Unescape(p + e) == (if p == "&lt;" then "<" else ">") + Unescape(e)
  {
    assert (p + e)[0] == '&';
    assert (p + e)[..4] == p && (p + e)[4..] == e;
  }

  lemma UnescapePlain(c: char, e: string)
    requires c != '<' && c != '&'
    ensures Unescape([c] + e) == [c] + Unescape(e)
  {
    assert ([c] + e)[0] == c;
    assert ([c] + e)[1..] == e;
  }

  /** Read back by a browser, the transformed entry is the original text with
      its line terminators unified, provided the text holds no `&`. */
  lemma {:induction false} UnescapeOnePass(s: string)
    requires '&' !in s
    ensures Unescape(EscapeOnePass(s)) == NormalizeNewlines(s)
    decreases |s|
  {
    if s == [] {
    } else if |s| >= 2 && s[0] == '\r' && s[1] == '\n' {
      UnescapeBreak(EscapeOnePass(s[2..]));
      UnescapeOnePass(s[2..]);
    } else if s[0] == '\r' || s[0] == '\n' {
      UnescapeBreak(EscapeOnePass(s[1..]));
      UnescapeOnePass(s[1..]);
    } else if s[0] == '<' {
      UnescapeReference("&lt;", EscapeOnePass(s[1..]));
      UnescapeOnePass(s[1..]);
    } else if s[0] == '>' {
      UnescapeReference("&gt;", EscapeOnePass(s[1..]));
      UnescapeOnePass(s[1..]);
    } else {
      assert s[0] in s;
      UnescapePlain(s[0], EscapeOnePass(s[1..]));
      UnescapeOnePass(s[1..]);
    }
  }

  lemma {:induction false} FormatLogRoundTrip(s: string)
    requires '&' !in s
    ensures Unescape(FormatLog(s)) == NormalizeNewlines(s)
  {
    UnescapeOnePass(s);
  }

  /** Why the round trip needs its precondition: `&` is not escaped, so a
      literal `&lt;` in a message is written exactly as a `<` is. */
  lemma AmpersandIsNotEscaped()
    ensures FormatLog("&lt;") == FormatLog("<")
  {
    assert "&lt;" == ['&'] + "lt;";
    assert "lt;" == ['l'] + "t;";
    assert "t;" == ['t'] + ";";
  }

  // ---------------------------------------------------------------------------
  // Joining entries

  lemma {:induction false} OnlyBreakTagsAppend(a: string, b: string)
    requires OnlyBreakTags(a) && OnlyBreakTags(b)
    ensures OnlyBreakTags(a + b)
    decreases |a|
  {
    if a == [] {
      assert a + b == b;
    } else if a[0] == '<' {
      OnlyBreakTagsAppend(a[6..], b);
      assert a + b == BreakTag + (a[6..] + b);
      OnlyBreakTagsBreakPrefix(a[6..] + b);
    } else {
      OnlyBreakTagsAppend(a[1..], b);
      assert a + b == [a[0]] + (a[1..] + b);
      OnlyBreakTagsPlainPrefix([a[0]], a[1..] + b);
    }
  }

  /** Joining with the line-break tag as separator keeps the property. */
  lemma {:induction false} JoinOnlyBreakTags(items: seq<string>)
    requires forall i :: 0 <= i < |items| ==> OnlyBreakTags(items[i])
    ensures OnlyBreakTags(Join(items, BreakTag))
    decreases |items|
  {
    if |items| >= 2 {
      JoinOnlyBreakTags(items[1..]);
      OnlyBreakTagsBreakPrefix(Join(items[1..], BreakTag));
      OnlyBreakTagsAppend(items[0], BreakTag + Join(items[1..], BreakTag));
      assert items[0] + BreakTag + Join(items[1..], BreakTag)
          == items[0] + (BreakTag + Join(items[1..], BreakTag));
    }
  }

  /** Joining one more item appends the separator and that item. */
  lemma {:induction false} JoinSnoc(items: seq<string>, x: string, sep: string)
    requires items != []
    ensures Join(items + [x], sep) == Join(items, sep) + sep + x
    decreases |items|
  {
    var all := items + [x];
    if |items| == 1 {
      assert all[1..] == [x];
    } else {
      assert all[0] == items[0];
      assert all[1..] == items[1..] + [x];
      JoinSnoc(items[1..], x, sep);
      Regroup(items[0] + sep, Join(items[1..], sep), sep + x);
      Regroup(Join(items, sep), sep, x);
      Regroup(items[0] + sep + Join(items[1..], sep), sep, x);
    }
  }

  /** A join is its first item followed by every later item prefixed with the separator. */
  lemma {:induction false} JoinAsPrefixed(items: seq<string>, sep: string)
    requires |items| >= 1
    ensures Join(items, sep) == items[0] + Concat(seq(|items| - 1, i requires 0 <= i < |items| - 1 => sep + items[i + 1]))
    decreases |items|
  {
    var tail := seq(|items| - 1, i requires 0 <= i < |items| - 1 => sep + items[i + 1]);
    if |items| == 1 {
      assert tail == [];
    } else {
      var rest := items[1..];
      JoinAsPrefixed(rest, sep);
      var tail' := seq(|rest| - 1, i requires 0 <= i < |rest| - 1 => sep + rest[i + 1]);
      assert tail[1..] == tail';
      assert tail[0] == sep + items[1];
      assert Concat(tail) == sep + items[1] + Concat(tail');
    }
  }
}

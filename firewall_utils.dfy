/**
 * PowerShell quoting for the firewall rule commands of
 * include/network/FirewallUtils.h.
 *
 * psEscape doubles every single quote so that a name can be embedded in a
 * PowerShell single-quoted string literal, and the rule commands embed the
 * escaped display name and program path between single quotes.  Running the
 * elevated PowerShell process is not part of this model.
 */
module FirewallUtils {
  import opened Wrappers

  /** What psEscape appends for one character. */
  function EscapeChar(c: char): (r: string)
    ensures c == '\'' ==> r == "''"
    ensures c != '\'' ==> r == [c]
  {
    if c == '\'' then "''" else [c]
  }

  function QuoteCount(s: string): nat
  {
    if s == [] then 0 else (if s[0] == '\'' then 1 else 0) + QuoteCount(s[1..])
  }

  /** psEscape's result: every single quote doubled, every other character copied, in order. */
  function Escaped(s: string): (r: string)
    ensures |r| == |s| + QuoteCount(s)
  {
    if s == [] then [] else EscapeChar(s[0]) + Escaped(s[1..])
  }

  lemma {:induction false} EscapedAppend(a: string, b: string)
    ensures Escaped(a + b) == Escaped(a) + Escaped(b)
  {
    if a == [] {
      assert a + b == b;
    } else {
      assert (a + b)[1..] == a[1..] + b;
      EscapedAppend(a[1..], b);
    }
  }

  /** psEscape (FirewallUtils.h): the loop appends each character's escape. */
  method PsEscape(s: string) returns (out: string)
    ensures out == Escaped(s)
  {
    out := [];
    for i := 0 to |s|
      invariant out == Escaped(s[..i])
    {
      assert s[..i + 1] == s[..i] + [s[i]];
      EscapedAppend(s[..i], [s[i]]);
      out := out + EscapeChar(s[i]);
    }
    assert s[..|s|] == s;
  }

  /** Reading an escaped text back: each "''" becomes one quote again. */
  function Collapse(t: string): string
  {
    if |t| >= 2 && t[0] == '\'' && t[1] == '\'' then "'" + Collapse(t[2..])
    else if t == [] then []
    else [t[0]] + Collapse(t[1..])
  }

  /** Collapsing every doubled quote of an escaped string gives the original back. */
  lemma {:induction false} CollapseEscaped(s: string)
    ensures Collapse(Escaped(s)) == s
  {
    if s != [] {
      var rest := Escaped(s[1..]);
      CollapseEscaped(s[1..]);
      if s[0] == '\'' {
        assert Escaped(s) == "''" + rest;
        assert ("''" + rest)[2..] == rest;
      } else {
        assert Escaped(s) == [s[0]] + rest;
        assert ([s[0]] + rest)[1..] == rest;
      }
      assert s == [s[0]] + s[1..];
    }
  }

  /**
   * The characters PowerShell takes for a single quote: the apostrophe and
   * the typographic quotes U+2018, U+2019, U+201A and U+201B.
   */
  predicate IsQuote(c: char)
  {
    c == '\'' || c == '\U{2018}' || c == '\U{2019}' || c == '\U{201A}' || c == '\U{201B}'
  }

  /** No typographic quote: the only quote character, if any, is the apostrophe. */
  predicate PlainQuotes(s: string)
  {
    forall k :: 0 <= k < |s| ==> IsQuote(s[k]) ==> s[k] == '\''
  }

  /**
   * How PowerShell reads the body of a single-quoted string literal (the text
   * after the opening quote): two quote characters in a row stand for the
   * second one and a lone quote character ends the literal.  Gives the
   * literal's value and the number of characters read, closing quote
   * included, or None when the literal is never closed.
   */
  function ReadSingleQuoted(t: string): Option<(string, nat)>
  {
    if t == [] then None
    else if IsQuote(t[0]) then
      if |t| >= 2 && IsQuote(t[1]) then
        match ReadSingleQuoted(t[2..])
        case None => None
        case Some(r) => Some(([t[1]] + r.0, r.1 + 2))
      else Some(("", 1))
    else
      match ReadSingleQuoted(t[1..])
      case None => None
      case Some(r) => Some(([t[0]] + r.0, r.1 + 1))
  }

  /** Regrouping a concatenation of four texts. */
  lemma {:induction false} Regroup(w: string, x: string, y: string, z: string)
    ensures w + x + y + z == w + (x + y + z)
  {
  }

  /**
   * An escaped string without typographic quotes between single quotes is
   * one literal whose value is the original string: such an input cannot
   * close the literal early.
   */
  lemma {:induction false} EscapedLiteral(s: string, rest: string)
    requires PlainQuotes(s)
    requires rest == [] || !IsQuote(rest[0])
    ensures ReadSingleQuoted(Escaped(s) + "'" + rest) == Some((s, |Escaped(s)| + 1))
  {
    if s == [] {
      assert Escaped(s) + "'" + rest == "'" + rest;
    } else {
      var e := Escaped(s[1..]);
      var tail := e + "'" + rest;
      assert PlainQuotes(s[1..]) by {
        forall k | 0 <= k < |s[1..]| ensures IsQuote(s[1..][k]) ==> s[1..][k] == '\'' {
          assert s[1..][k] == s[k + 1];
        }
      }
      EscapedLiteral(s[1..], rest);
      assert Escaped(s) == EscapeChar(s[0]) + e;
      Regroup(EscapeChar(s[0]), e, "'", rest);
      if s[0] == '\'' {
        QuotePairRead(tail, s[1..], |e| + 1);
      } else {
        PlainCharRead(s[0], tail, s[1..], |e| + 1);
      }
      assert s == [s[0]] + s[1..];
    }
  }

  /** A doubled quote in front of a literal's body adds one quote to its value. */
  lemma {:induction false} QuotePairRead(tail: string, v: string, n: nat)
    requires ReadSingleQuoted(tail) == Some((v, n))
    ensures ReadSingleQuoted("''" + tail) == Some(("'" + v, n + 2))
  {
    assert ("''" + tail)[2..] == tail;
  }

  /** Any other character in front of a literal's body is copied to its value. */
  lemma {:induction false} PlainCharRead(c: char, tail: string, v: string, n: nat)
    requires !IsQuote(c) && ReadSingleQuoted(tail) == Some((v, n))
    ensures ReadSingleQuoted([c] + tail) == Some(([c] + v, n + 1))
  {
    assert ([c] + tail)[1..] == tail;
  }

  /** The text of a literal quoted with psEscape: opening quote, escaped text, closing quote. */
  function Quoted(s: string): (r: string)
    ensures |r| == |s| + QuoteCount(s) + 2
    ensures r[0] == '\'' && r[|r| - 1] == '\''
  {
    "'" + Escaped(s) + "'"
  }

  /** A quoted literal placed after `pre` and before text that does not start with a quote reads back as exactly `s`. */
  lemma {:induction false} QuotedReadsBack(pre: string, s: string, rest: string, t: string)
    requires PlainQuotes(s)
    requires rest == [] || !IsQuote(rest[0])
    requires t == pre + Quoted(s) + rest
    ensures |pre| + 1 < |t|
    ensures ReadSingleQuoted(t[|pre| + 1..]) == Some((s, |Quoted(s)| - 1))
  {
    assert t[|pre| + 1..] == Escaped(s) + "'" + rest;
    EscapedLiteral(s, rest);
  }

  /**
   * psEscape doubles only the apostrophe, so a typographic quote in a name
   * ends the literal early: the rest of the name is read as PowerShell code.
   */
  lemma SmartQuoteEndsLiteral()
    ensures ReadSingleQuoted(Escaped("a\U{2019}b") + "'") == Some(("a", 2))
    ensures RemoveRuleCommand("a\U{2019}b")[|RemovePrefix| + 1..] == "a\U{2019}b'" + RemoveSuffix
  {
    assert Escaped("b") == "b";
    assert Escaped("\U{2019}b") == "\U{2019}b";
    assert Escaped("a\U{2019}b") == "a\U{2019}b";
    var tail := "\U{2019}b'";
    assert IsQuote(tail[0]) && !IsQuote(tail[1]);
    assert ReadSingleQuoted(tail) == Some(("", 1));
    PlainCharRead('a', tail, "", 1);
    assert ['a'] + "" == "a";
    assert Escaped("a\U{2019}b") + "'" == ['a'] + tail;
  }

  /** The escape the literal needs: every quote character doubled, every other character copied. */
  function EscapeCharIntended(c: char): (r: string)
    ensures IsQuote(c) ==> r == [c, c]
    ensures !IsQuote(c) ==> r == [c]
  {
    if IsQuote(c) then [c, c] else [c]
  }

  function EscapedIntended(s: string): (r: string)
    ensures |r| >= |s|
  {
    if s == [] then [] else EscapeCharIntended(s[0]) + EscapedIntended(s[1..])
  }

  /** On strings without typographic quotes the intended escape is psEscape's. */
  lemma {:induction false} EscapedIntendedAgrees(s: string)
    requires PlainQuotes(s)
    ensures EscapedIntended(s) == Escaped(s)
  {
    if s != [] {
      assert PlainQuotes(s[1..]) by {
        forall k | 0 <= k < |s[1..]| ensures IsQuote(s[1..][k]) ==> s[1..][k] == '\'' {
          assert s[1..][k] == s[k + 1];
        }
      }
      EscapedIntendedAgrees(s[1..]);
    }
  }

  /** Two quote characters in front of a literal's body add the second one to its value. */
  lemma {:induction false} QuotePairReadAny(q1: char, q2: char, tail: string, v: string, n: nat)
    requires IsQuote(q1) && IsQuote(q2) && ReadSingleQuoted(tail) == Some((v, n))
    ensures ReadSingleQuoted([q1, q2] + tail) == Some(([q2] + v, n + 2))
  {
    assert ([q1, q2] + tail)[2..] == tail;
  }

  /** With every quote character doubled, any string between single quotes reads back as itself. */
  lemma {:induction false} EscapedIntendedLiteral(s: string, rest: string)
    requires rest == [] || !IsQuote(rest[0])
    ensures ReadSingleQuoted(EscapedIntended(s) + "'" + rest) == Some((s, |EscapedIntended(s)| + 1))
  {
    if s == [] {
      assert EscapedIntended(s) + "'" + rest == "'" + rest;
    } else {
      var e := EscapedIntended(s[1..]);
      var tail := e + "'" + rest;
      EscapedIntendedLiteral(s[1..], rest);
      Regroup(EscapeCharIntended(s[0]), e, "'", rest);
      if IsQuote(s[0]) {
        QuotePairReadAny(s[0], s[0], tail, s[1..], |e| + 1);
      } else {
        PlainCharRead(s[0], tail, s[1..], |e| + 1);
      }
      assert s == [s[0]] + s[1..];
    }
  }

  /** A literal quoted the intended way: opening quote, every quote character doubled, closing quote. */
  function QuotedIntended(s: string): (r: string)
    ensures |r| >= |s| + 2 && r[0] == '\''
  {
    "'" + EscapedIntended(s) + "'"
  }

  /** A literal quoted the intended way reads back as exactly `s`, whatever `s` holds. */
  lemma {:induction false} QuotedIntendedReadsBack(pre: string, s: string, rest: string, t: string)
    requires rest == [] || !IsQuote(rest[0])
    requires t == pre + QuotedIntended(s) + rest
    ensures |pre| + 1 < |t|
    ensures ReadSingleQuoted(t[|pre| + 1..]) == Some((s, |QuotedIntended(s)| - 1))
  {
    assert t[|pre| + 1..] == EscapedIntended(s) + "'" + rest;
    EscapedIntendedLiteral(s, rest);
  }

  const RemovePrefix: string := "$n="
  const RemoveSuffix: string := [';'] + " Get-NetFirewallRule -DisplayName $n -ErrorAction SilentlyContinue | Remove-NetFirewallRule -Confirm:$false"

  /** The command removeRuleElevated runs: the display name is one quoted literal bound to $n. */
  function RemoveRuleCommand(displayName: string): (r: string)
    ensures |r| > |RemovePrefix| + 1 && r[..|RemovePrefix|] == RemovePrefix
    ensures PlainQuotes(displayName) ==>
              ReadSingleQuoted(r[|RemovePrefix| + 1..]) == Some((displayName, |Quoted(displayName)| - 1))
  {
    var r := RemovePrefix + Quoted(displayName) + RemoveSuffix;
    assert RemoveSuffix[0] == ';';
    assert PlainQuotes(displayName) ==>
             ReadSingleQuoted(r[|RemovePrefix| + 1..]) == Some((displayName, |Quoted(displayName)| - 1)) by {
      if PlainQuotes(displayName) {
        QuotedReadsBack(RemovePrefix, displayName, RemoveSuffix, r);
      }
    }
    r
  }

  /** Of two quoted literals separated by `middle`, the first reads back as `a`. */
  lemma {:induction false} FirstOfTwo(pre: string, a: string, middle: string, b: string, post: string, r: string)
    requires PlainQuotes(a)
    requires middle != [] && !IsQuote(middle[0])
    requires r == pre + Quoted(a) + middle + Quoted(b) + post
    ensures |pre| + 1 < |r|
    ensures ReadSingleQuoted(r[|pre| + 1..]) == Some((a, |Quoted(a)| - 1))
  {
    var rest := middle + Quoted(b) + post;
    assert rest[0] == middle[0];
    Regroup(pre + Quoted(a), middle, Quoted(b), post);
    QuotedReadsBack(pre, a, rest, r);
  }

  /** Of two quoted literals separated by `middle`, the second reads back as `b`. */
  lemma {:induction false} SecondOfTwo(pre: string, a: string, middle: string, b: string, post: string, r: string)
    requires PlainQuotes(b)
    requires post == [] || !IsQuote(post[0])
    requires r == pre + Quoted(a) + middle + Quoted(b) + post
    ensures |pre| + |Quoted(a)| + |middle| + 1 < |r|
    ensures ReadSingleQuoted(r[|pre| + |Quoted(a)| + |middle| + 1..]) == Some((b, |Quoted(b)| - 1))
  {
    QuotedReadsBack(pre + Quoted(a) + middle, b, post, r);
  }

  const NewRulePrefix: string := "New-NetFirewallRule -DisplayName "
  const TcpMiddle: string := [' '] + "-Direction Inbound -Action Allow -Protocol TCP -LocalPort Any -Program "
  const UdpMiddle: string := [' '] + "-Direction Inbound -Action Allow -Protocol UDP -Program "

  /** The rule's protocol part: TCP on any local port, or UDP. */
  function RuleMiddle(isTcp: bool): (r: string)
    ensures r != [] && r[0] == ' '
  {
    if isTcp then TcpMiddle else UdpMiddle
  }

  function ProfileClause(privateOnly: bool): (r: string)
    ensures r != [] && r[0] == ' '
  {
    [' '] + "-Profile " + (if privateOnly then "Private" else "Any")
  }

  /**
   * The command of addInboundAnyTcpForExe (`isTcp`) or addInboundAnyUdpForExe:
   * the display name and then the program path as quoted literals, the
   * protocol part between them and the profile clause last.
   */
  function AddInboundRuleCommand(displayName: string, programPath: string, privateOnly: bool, isTcp: bool): string
  {
    NewRulePrefix + Quoted(displayName) + RuleMiddle(isTcp) + Quoted(programPath) + ProfileClause(privateOnly)
  }

  /** The display name of a new rule is exactly one literal, right after the prefix. */
  lemma {:induction false} AddInboundRuleName(displayName: string, programPath: string, privateOnly: bool, isTcp: bool)
    requires PlainQuotes(displayName)
    ensures var r := AddInboundRuleCommand(displayName, programPath, privateOnly, isTcp);
            |NewRulePrefix| + 1 < |r|
            && ReadSingleQuoted(r[|NewRulePrefix| + 1..]) == Some((displayName, |Quoted(displayName)| - 1))
  {
    FirstOfTwo(NewRulePrefix, displayName, RuleMiddle(isTcp), programPath, ProfileClause(privateOnly),
               AddInboundRuleCommand(displayName, programPath, privateOnly, isTcp));
  }

  /** The program path of a new rule is exactly one literal, right after the protocol part. */
  lemma {:induction false} AddInboundRulePath(displayName: string, programPath: string, privateOnly: bool, isTcp: bool)
    requires PlainQuotes(programPath)
    ensures var r := AddInboundRuleCommand(displayName, programPath, privateOnly, isTcp);
            var pathAt := |NewRulePrefix| + |Quoted(displayName)| + |RuleMiddle(isTcp)|;
            pathAt + 1 < |r|
            && ReadSingleQuoted(r[pathAt + 1..]) == Some((programPath, |Quoted(programPath)| - 1))
  {
    SecondOfTwo(NewRulePrefix, displayName, RuleMiddle(isTcp), programPath, ProfileClause(privateOnly),
                AddInboundRuleCommand(displayName, programPath, privateOnly, isTcp));
  }

  /** The command removeRuleElevated evidently intends: the whole display name is one literal for every name. */
  function RemoveRuleCommandIntended(displayName: string): (r: string)
    ensures PlainQuotes(displayName) ==> r == RemoveRuleCommand(displayName)
    ensures |r| > |RemovePrefix| + 1 && r[..|RemovePrefix|] == RemovePrefix
    ensures ReadSingleQuoted(r[|RemovePrefix| + 1..]) == Some((displayName, |QuotedIntended(displayName)| - 1))
  {
    var r := RemovePrefix + QuotedIntended(displayName) + RemoveSuffix;
    assert PlainQuotes(displayName) ==> r == RemoveRuleCommand(displayName) by {
      if PlainQuotes(displayName) {
        EscapedIntendedAgrees(displayName);
      }
    }
    assert RemoveSuffix[0] == ';';
    QuotedIntendedReadsBack(RemovePrefix, displayName, RemoveSuffix, r);
    r
  }

  /** The rule command the add-inbound functions evidently intend, with every quote character doubled. */
  function AddInboundRuleCommandIntended(displayName: string, programPath: string, privateOnly: bool, isTcp: bool): (r: string)
    ensures PlainQuotes(displayName) && PlainQuotes(programPath) ==>
              r == AddInboundRuleCommand(displayName, programPath, privateOnly, isTcp)
  {
    assert PlainQuotes(displayName) && PlainQuotes(programPath) ==>
             QuotedIntended(displayName) == Quoted(displayName) && QuotedIntended(programPath) == Quoted(programPath) by {
      if PlainQuotes(displayName) && PlainQuotes(programPath) {
        EscapedIntendedAgrees(displayName);
        EscapedIntendedAgrees(programPath);
      }
    }
    NewRulePrefix + QuotedIntended(displayName) + RuleMiddle(isTcp) + QuotedIntended(programPath) + ProfileClause(privateOnly)
  }

  /** In the intended command the display name reads back as one literal, for every name. */
  lemma {:induction false} AddInboundIntendedName(displayName: string, programPath: string, privateOnly: bool, isTcp: bool)
    ensures var r := AddInboundRuleCommandIntended(displayName, programPath, privateOnly, isTcp);
            |NewRulePrefix| + 1 < |r|
            && ReadSingleQuoted(r[|NewRulePrefix| + 1..]) == Some((displayName, |QuotedIntended(displayName)| - 1))
  {
    var middle := RuleMiddle(isTcp);
    var rest := middle + QuotedIntended(programPath) + ProfileClause(privateOnly);
    assert rest[0] == middle[0];
    Regroup(NewRulePrefix + QuotedIntended(displayName), middle, QuotedIntended(programPath), ProfileClause(privateOnly));
    QuotedIntendedReadsBack(NewRulePrefix, displayName, rest,
                            AddInboundRuleCommandIntended(displayName, programPath, privateOnly, isTcp));
  }

  /** In the intended command the program path reads back as one literal, for every path. */
  lemma {:induction false} AddInboundIntendedPath(displayName: string, programPath: string, privateOnly: bool, isTcp: bool)
    ensures var r := AddInboundRuleCommandIntended(displayName, programPath, privateOnly, isTcp);
            var pathAt := |NewRulePrefix| + |QuotedIntended(displayName)| + |RuleMiddle(isTcp)|;
            pathAt + 1 < |r|
            && ReadSingleQuoted(r[pathAt + 1..]) == Some((programPath, |QuotedIntended(programPath)| - 1))
  {
    QuotedIntendedReadsBack(NewRulePrefix + QuotedIntended(displayName) + RuleMiddle(isTcp), programPath,
                            ProfileClause(privateOnly),
                            AddInboundRuleCommandIntended(displayName, programPath, privateOnly, isTcp));
  }
}

/**
 The build script's comment stripper. It is one global regular-expression
 replace: at each position the expression tries a string literal, then a
 block comment, then a line comment, in that order. A string literal is put
 back as it stands, a comment is replaced by nothing, and where no
 alternative matches the character stays and the search resumes one
 character further on. `RemoveComments` is that pass, written as recursion
 on the rest of the text; `Strip` is the same pass as a loop over a cursor.
 */
module Comments {
  import opened Base

  /** The three quotes that open a string literal. */
  predicate IsQuote(c: char)
  {
    c == '"' || c == '\'' || c == '`'
  }

  /** The characters JavaScript's `.` does not match. */
  predicate IsLineTerminator(c: char)
  {
    c == '\n' || c == '\r' || c == '\U{2028}' || c == '\U{2029}'
  }

  /**
   What may stand between the quotes of a literal opened by `q`: escape
   pairs (a backslash and any one character) and characters other than `q`
   and the backslash, line breaks included.
   */
  predicate LiteralBody(b: string, q: char)
    decreases |b|
  {
    |b| == 0
    || (b[0] == '\\' && |b| >= 2 && LiteralBody(b[2..], q))
    || (b[0] != '\\' && b[0] != q && LiteralBody(b[1..], q))
  }

  /** `*` directly followed by `/` somewhere in `t`. */
  predicate HasCloser(t: string)
  {
    exists i :: 0 <= i < |t| - 1 && t[i] == '*' && t[i + 1] == '/'
  }

  /**
   Just after an opening quote `q`: how far the literal reaches, closing
   quote included. A backslash takes the next character with it whatever it
   is; None when the text ends before an unescaped `q`.
   */
  function LiteralRest(t: string, q: char): (r: Option<nat>)
    ensures r.Some? ==> 1 <= r.value <= |t| && t[r.value - 1] == q
    decreases |t|
  {
    if |t| == 0 then None
    else if t[0] == q then Some(1)
    else if t[0] == '\\' then
      if |t| < 2 then None
      else match LiteralRest(t[2..], q)
        case None => None
        case Some(n) => Some(n + 2)
    else match LiteralRest(t[1..], q)
      case None => None
      case Some(n) => Some(n + 1)
  }

  /** Just after a block opener: how far the comment reaches, up to the first closer included. */
  function BlockRest(t: string): (r: Option<nat>)
    ensures r.Some? ==> 2 <= r.value <= |t| && t[r.value - 2] == '*' && t[r.value - 1] == '/'
    decreases |t|
  {
    if |t| < 2 then None
    else if t[0] == '*' && t[1] == '/' then Some(2)
    else match BlockRest(t[1..])
      case None => None
      case Some(n) => Some(n + 1)
  }

  /** Just after `//`: the comment's length, up to the first line terminator or the end. */
  function LineRest(t: string): (n: nat)
    ensures n <= |t|
    ensures forall i :: 0 <= i < n ==> !IsLineTerminator(t[i])
    ensures n < |t| ==> IsLineTerminator(t[n])
    decreases |t|
  {
    if |t| == 0 || IsLineTerminator(t[0]) then 0 else 1 + LineRest(t[1..])
  }

  /** The three alternatives at the front of `s`, and how much each consumes. */
  datatype Step = KeepLiteral(len: nat) | DropBlock(len: nat) | DropLine(len: nat) | KeepChar

  function StepAt(s: string): (st: Step)
    requires |s| > 0
    ensures st.KeepLiteral? ==> 2 <= st.len <= |s| && IsQuote(s[0]) && s[st.len - 1] == s[0]
    ensures st.DropBlock? ==> 4 <= st.len <= |s| && s[..2] == "/*" && s[st.len - 2..st.len] == "*/"
    ensures st.DropLine? ==> 2 <= st.len <= |s| && s[..2] == "//" && (st.len < |s| ==> IsLineTerminator(s[st.len]))
    ensures (!IsQuote(s[0]) && s[0] != '/') ==> st.KeepChar?
  {
    if IsQuote(s[0]) && LiteralRest(s[1..], s[0]).Some? then KeepLiteral(1 + LiteralRest(s[1..], s[0]).value)
    else if |s| >= 2 && s[0] == '/' && s[1] == '*' && BlockRest(s[2..]).Some? then DropBlock(2 + BlockRest(s[2..]).value)
    else if |s| >= 2 && s[0] == '/' && s[1] == '/' then DropLine(2 + LineRest(s[2..]))
    else KeepChar
  }

  /** The whole replace: literals kept, comments deleted, everything else copied. */
  function RemoveComments(s: string): (r: string)
    ensures |r| <= |s|
    decreases |s|
  {
    if |s| == 0 then ""
    else
      match StepAt(s)
      case KeepLiteral(n) => s[..n] + RemoveComments(s[n..])
      case DropBlock(n) => RemoveComments(s[n..])
      case DropLine(n) => RemoveComments(s[n..])
      case KeepChar => [s[0]] + RemoveComments(s[1..])
  }

  /** How many characters a step consumes, and what it puts in the output. */
  function Consumed(t: string): (n: nat)
    requires |t| > 0
    ensures 1 <= n <= |t|
  {
    match StepAt(t)
    case KeepChar => 1
    case KeepLiteral(n) => n
    case DropBlock(n) => n
    case DropLine(n) => n
  }

  function Emitted(t: string): string
    requires |t| > 0
  {
    match StepAt(t)
    case KeepChar => [t[0]]
    case KeepLiteral(n) => t[..n]
    case DropBlock(_) => ""
    case DropLine(_) => ""
  }

  /** One step of the pass: its output, then the pass over what it did not consume. */
  lemma StepSplits(t: string)
    requires |t| > 0
    ensures RemoveComments(t) == Emitted(t) + RemoveComments(t[Consumed(t)..])
  {
  }

  /** The replace as the regular-expression engine runs it: a cursor moving left to right. */
  method Strip(s: string) returns (r: string)
    ensures r == RemoveComments(s)
  {
    r := "";
    var i := 0;
    while i < |s|
      invariant 0 <= i <= |s|
      invariant r + RemoveComments(s[i..]) == RemoveComments(s)
      decreases |s| - i
    {
      var t := s[i..];
      var n := Consumed(t);
      StepSplits(t);
      assert t[n..] == s[i + n..];
      r := r + Emitted(t);
      i := i + n;
    }
  }

  // ---------------------------------------------------------------------------
  // What the pass keeps and deletes
  // ---------------------------------------------------------------------------

  /** Text without quotes or slashes passes through, and the rest is processed on its own. */
  lemma {:induction false} PlainPrefixKept(p: string, rest: string)
    requires forall i :: 0 <= i < |p| ==> !IsQuote(p[i]) && p[i] != '/'
    ensures RemoveComments(p + rest) == p + RemoveComments(rest)
    decreases |p|
  {
    if |p| > 0 {
      var s := p + rest;
      assert s[0] == p[0] && s[1..] == p[1..] + rest;
      assert StepAt(s) == KeepChar;
      StepSplits(s);
      PlainPrefixKept(p[1..], rest);
      assert p + RemoveComments(rest) == [p[0]] + (p[1..] + RemoveComments(rest));
    } else {
      assert p + rest == rest;
    }
  }

  /** Input with none of `"`, `'`, `` ` `` and `/` comes back unchanged. */
  lemma NoMarkersUnchanged(s: string)
    requires forall i :: 0 <= i < |s| ==> !IsQuote(s[i]) && s[i] != '/'
    ensures RemoveComments(s) == s
  {
    PlainPrefixKept(s, "");
    assert s + "" == s;
  }

  lemma {:induction false} LiteralReach(b: string, q: char, rest: string)
    requires q != '\\' && LiteralBody(b, q)
    ensures LiteralRest(b + [q] + rest, q) == Some(|b| + 1)
    decreases |b|
  {
    var t := b + [q] + rest;
    if |b| > 0 {
      if b[0] == '\\' {
        assert t[2..] == b[2..] + [q] + rest;
        LiteralReach(b[2..], q, rest);
      } else {
        assert t[1..] == b[1..] + [q] + rest;
        LiteralReach(b[1..], q, rest);
      }
    }
  }

  /**
   A complete string literal is copied exactly, whatever it contains
   (comment markers, other quotes, escapes, line breaks), and scanning goes
   on after its closing quote.
   */
  lemma LiteralKept(q: char, b: string, rest: string)
    requires IsQuote(q) && LiteralBody(b, q)
    ensures RemoveComments([q] + b + [q] + rest) == [q] + b + [q] + RemoveComments(rest)
  {
    var s := [q] + b + [q] + rest;
    assert s[1..] == b + [q] + rest;
    LiteralReach(b, q, rest);
    assert s[..|b| + 2] == [q] + b + [q];
    assert s[|b| + 2..] == rest;
  }

  /**
   A quote with no closing partner opens nothing: it is copied, and what
   follows it is processed as ordinary text (comments in it are deleted).
   */
  lemma UnclosedQuoteCopied(q: char, t: string)
    requires IsQuote(q) && LiteralRest(t, q).None?
    ensures RemoveComments([q] + t) == [q] + RemoveComments(t)
  {
    var s := [q] + t;
    assert s[1..] == t;
    StepSplits(s);
  }

  /** A comment opener inside a literal is not a comment: a quoted line or block opener survives. */
  lemma MarkersInLiteralKept(rest: string)
    ensures RemoveComments("\"//\"" + rest) == "\"//\"" + RemoveComments(rest)
    ensures RemoveComments("'/*'" + rest) == "'/*'" + RemoveComments(rest)
  {
    QuotedKept('"', '/', '/', rest);
    QuotedKept('\'', '/', '*', rest);
  }

  /** Two characters other than the quote and the backslash, quoted, are kept as a literal. */
  lemma QuotedKept(q: char, a: char, b: char, rest: string)
    requires IsQuote(q) && a != q && b != q && a != '\\' && b != '\\'
    ensures RemoveComments([q, a, b, q] + rest) == [q, a, b, q] + RemoveComments(rest)
  {
    assert LiteralBody([b], q);
    assert LiteralBody([a, b], q);
    assert [q, a, b, q] + rest == [q] + [a, b] + [q] + rest;
    LiteralKept(q, [a, b], rest);
  }

  /** Dropping the first character cannot create a closer. */
  lemma NoCloserTail(t: string)
    requires |t| >= 1 && !HasCloser(t)
    ensures !HasCloser(t[1..])
  {
    forall i | 0 <= i < |t[1..]| - 1
      ensures !(t[1..][i] == '*' && t[1..][i + 1] == '/')
    {
      assert t[1..][i] == t[i + 1] && t[1..][i + 1] == t[i + 2];
    }
  }

  lemma {:induction false} BlockReach(b: string, rest: string)
    requires !HasCloser(b)
    ensures BlockRest(b + "*/" + rest) == Some(|b| + 2)
    decreases |b|
  {
    var t := b + "*/" + rest;
    if |b| > 0 {
      assert !(t[0] == '*' && t[1] == '/') by {
        if |b| >= 2 {
          assert !(b[0] == '*' && b[1] == '/');
        }
      }
      assert t[1..] == b[1..] + "*/" + rest;
      NoCloserTail(b);
      BlockReach(b[1..], rest);
    }
  }

  lemma {:induction false} BlockUnclosed(t: string)
    requires !HasCloser(t)
    ensures BlockRest(t).None?
    decreases |t|
  {
    if |t| >= 2 {
      assert !(t[0] == '*' && t[1] == '/');
      NoCloserTail(t);
      BlockUnclosed(t[1..]);
    }
  }

  /** A block comment goes from its opener to the first closer after it, both included. */
  lemma BlockDeleted(b: string, rest: string)
    requires !HasCloser(b)
    ensures RemoveComments("/*" + b + "*/" + rest) == RemoveComments(rest)
  {
    var s := "/*" + b + "*/" + rest;
    assert s[2..] == b + "*/" + rest;
    BlockReach(b, rest);
    assert s[|b| + 4..] == rest;
  }

  /**
   An opener with no closer after it is not a comment: it stays, and the
   text after it is processed as ordinary text.
   */
  lemma UnclosedBlockKept(b: string)
    requires !HasCloser(b)
    ensures RemoveComments("/*" + b) == "/*" + RemoveComments(b)
  {
    var s := "/*" + b;
    assert s[0] == '/' && s[1] == '*';
    assert s[2..] == b;
    BlockUnclosed(b);
    assert StepAt(s) == KeepChar;
    assert s[1..] == "*" + b;
    assert RemoveComments(s) == "/" + RemoveComments("*" + b);
    PlainPrefixKept("*", b);
    assert "/" + ("*" + RemoveComments(b)) == "/*" + RemoveComments(b);
  }

  lemma {:induction false} LineReach(text: string, rest: string)
    requires forall i :: 0 <= i < |text| ==> !IsLineTerminator(text[i])
    requires |rest| > 0 ==> IsLineTerminator(rest[0])
    ensures LineRest(text + rest) == |text|
    decreases |text|
  {
    if |text| > 0 {
      assert (text + rest)[1..] == text[1..] + rest;
      LineReach(text[1..], rest);
    }
  }

  /** At `//` the pass drops the `n` characters of the comment and goes on after it. */
  lemma LineStep(s: string, n: nat)
    requires |s| >= 2 && s[0] == '/' && s[1] == '/' && LineRest(s[2..]) == n
    ensures RemoveComments(s) == RemoveComments(s[2 + n..])
  {
    assert !IsQuote(s[0]);
    assert StepAt(s) == DropLine(2 + n);
  }

  /** Where a line comment's text ends. */
  lemma LineSplit(s: string, text: string, rest: string)
    requires s == "//" + text + rest
    requires forall i :: 0 <= i < |text| ==> !IsLineTerminator(text[i])
    requires |rest| > 0 ==> IsLineTerminator(rest[0])
    ensures s[0] == '/' && s[1] == '/' && LineRest(s[2..]) == |text| && s[2 + |text|..] == rest
  {
    assert s[2..] == text + rest;
    LineReach(text, rest);
  }

  /**
   A line comment goes from `//` up to the next line terminator, which is
   kept, or to the end of the input.
   */
  lemma LineDeleted(text: string, rest: string)
    requires forall i :: 0 <= i < |text| ==> !IsLineTerminator(text[i])
    requires |rest| > 0 ==> IsLineTerminator(rest[0])
    ensures RemoveComments("//" + text + rest) == RemoveComments(rest)
    ensures |rest| > 0 ==> RemoveComments("//" + text + rest) == [rest[0]] + RemoveComments(rest[1..])
  {
    var s := "//" + text + rest;
    LineSplit(s, text, rest);
    LineStep(s, |text|);
    if |rest| > 0 {
      TerminatorKept(rest);
    }
  }

  /** A line terminator is copied like any other plain character. */
  lemma TerminatorKept(rest: string)
    requires |rest| > 0 && IsLineTerminator(rest[0])
    ensures RemoveComments(rest) == [rest[0]] + RemoveComments(rest[1..])
  {
    PlainPrefixKept([rest[0]], rest[1..]);
    assert [rest[0]] + rest[1..] == rest;
  }

  /** The output is the input with characters deleted, never added or reordered. */
  lemma {:induction false} OutputIsSubsequence(s: string)
    ensures IsSubsequence(RemoveComments(s), s)
    decreases |s|
  {
    if |s| == 0 {
      SubsequenceRefl(s);
    } else {
      match StepAt(s)
      case KeepLiteral(n) =>
        OutputIsSubsequence(s[n..]);
        SubsequencePrefix(RemoveComments(s[n..]), s[n..], s[..n]);
        assert s[..n] + s[n..] == s;
      case DropBlock(n) =>
        OutputIsSubsequence(s[n..]);
        SubsequenceOfSuffix(RemoveComments(s[n..]), s[n..], s[..n]);
        assert s[..n] + s[n..] == s;
      case DropLine(n) =>
        OutputIsSubsequence(s[n..]);
        SubsequenceOfSuffix(RemoveComments(s[n..]), s[n..], s[..n]);
        assert s[..n] + s[n..] == s;
      case KeepChar =>
        OutputIsSubsequence(s[1..]);
        SubsequenceCons(RemoveComments(s[1..]), s[1..], s[0]);
        assert [s[0]] + s[1..] == s;
    }
  }
}

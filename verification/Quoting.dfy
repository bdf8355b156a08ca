/** Quoting for other programs to read back: `shellJoin` and `osaQuote`
    (`src/privilege_unix.go`) and the CEF header escape (`src/log/format.go`). */
module Quoting {
  import opened Options
  import opened Strings

  lemma {:induction false} ReplaceHead(c: char, s: string, x: char, r: string)
    ensures ReplaceAll([c] + s, [x], r) == (if c == x then r else [c]) + ReplaceAll(s, [x], r)
  {
    assert ([c] + s)[1..] == s;
    assert ([c] + s)[..1] == [c];
  }

  // --- The shell ---

  function Quoted(a: string): string {
    ['\''] + ReplaceAll(a, ['\''], ['\'', '\\', '\'', '\'']) + ['\'']
  }

  function JoinWords(words: seq<string>): string {
    if words == [] then ""
    else if |words| == 1 then words[0]
    else words[0] + [' '] + JoinWords(words[1..])
  }

  function QuotedAll(args: seq<string>): seq<string> {
    if args == [] then [] else [Quoted(args[0])] + QuotedAll(args[1..])
  }

  /** `shellJoin`. */
  method ShellJoin(args: seq<string>) returns (line: string)
    ensures line == JoinWords(QuotedAll(args))
  {
    var quoted := new string[|args|];
    var i := 0;
    while i < |args|
      invariant 0 <= i <= |args|
      invariant quoted[..i] + QuotedAll(args[i..]) == QuotedAll(args)
    {
      quoted[i] := Quoted(args[i]);
      assert quoted[..i + 1] == quoted[..i] + [Quoted(args[i])];
      assert args[i..][1..] == args[i + 1..];
      i := i + 1;
    }
    assert quoted[..i] + [] == quoted[..] && args[i..] == [];
    line := JoinWords(quoted[..]);
  }

  /** Where the shell is while it breaks its input into words. */
  datatype Mode = Between | InWord(word: string) | InQuotes(word: string)

  predicate IsBlank(c: char) {
    c == ' ' || c == '\t'
  }

  /** Characters that mean something to the shell when unquoted. */
  predicate IsSpecial(c: char) {
    c in "|&;<>()$`\"*?[#~=%!{}\n"
  }

  function Word(m: Mode): string {
    if m.Between? then "" else m.word
  }

  /** Token recognition with quote removal: sections 2.2.1, 2.2.2 and 2.3 of the Shell
      Command Language volume of POSIX.1-2017. An unquoted special character, an
      unterminated quote or a trailing backslash gives nothing, so what is recognised is
      free of expansions and operators. */
  function Tokens(s: string, m: Mode): Option<seq<string>>
    decreases |s|
  {
    if s == "" then
      match m
      case Between => Some([])
      case InWord(w) => Some([w])
      case InQuotes(w) => None
    else if m.InQuotes? then
      Tokens(s[1..], if s[0] == '\'' then InWord(m.word) else InQuotes(m.word + [s[0]]))
    else if s[0] == '\'' then Tokens(s[1..], InQuotes(Word(m)))
    else if s[0] == '\\' then
      if |s| == 1 then None
      else if s[1] == '\n' then Tokens(s[2..], m)
      else Tokens(s[2..], InWord(Word(m) + [s[1]]))
    else if IsBlank(s[0]) then Delimit(m, Tokens(s[1..], Between))
    else if IsSpecial(s[0]) then None
    else Tokens(s[1..], InWord(Word(m) + [s[0]]))
  }

  /** A blank ends the word before it. */
  function Delimit(m: Mode, rest: Option<seq<string>>): Option<seq<string>> {
    if m.InWord? && rest.Some? then Some([m.word] + rest.value) else rest
  }

  lemma ClosingQuote(w: string, rest: string)
    ensures Tokens(['\''] + rest, InQuotes(w)) == Tokens(rest, InWord(w))
  {
    assert (['\''] + rest)[1..] == rest;
  }

  lemma OpeningQuote(m: Mode, rest: string)
    requires !m.InQuotes?
    ensures Tokens(['\''] + rest, m) == Tokens(rest, InQuotes(Word(m)))
  {
    assert (['\''] + rest)[1..] == rest;
  }

  lemma EscapedQuote(w: string, rest: string)
    ensures Tokens(['\\', '\''] + rest, InWord(w)) == Tokens(rest, InWord(w + ['\'']))
  {
    assert (['\\', '\''] + rest)[2..] == rest;
  }

  /** The four characters that stand for a quote leave the shell inside quotes with one quote more. */
  lemma QuoteInQuotes(w: string, rest: string)
    ensures Tokens(['\'', '\\', '\'', '\''] + rest, InQuotes(w)) == Tokens(rest, InQuotes(w + ['\'']))
  {
    var last := ['\''] + rest;
    var mid := ['\\', '\''] + last;
    assert ['\'', '\\', '\'', '\''] + rest == ['\''] + mid;
    ClosingQuote(w, mid);
    EscapedQuote(w, last);
    OpeningQuote(InWord(w + ['\'']), rest);
  }

  lemma OrdinaryInQuotes(c: char, w: string, rest: string)
    requires c != '\''
    ensures Tokens([c] + rest, InQuotes(w)) == Tokens(rest, InQuotes(w + [c]))
  {
    assert ([c] + rest)[1..] == rest;
  }

  lemma {:induction false} ReadsQuotedBody(a: string, w: string, rest: string)
    ensures Tokens(ReplaceAll(a, ['\''], ['\'', '\\', '\'', '\'']) + rest, InQuotes(w)) == Tokens(rest, InQuotes(w + a))
    decreases a
  {
    var four := ['\'', '\\', '\'', '\''];
    if a == "" {
      assert ReplaceAll(a, ['\''], four) + rest == rest && w + a == w;
    } else {
      var c, tail := a[0], ReplaceAll(a[1..], ['\''], four);
      assert [c] + a[1..] == a;
      ReplaceHead(c, a[1..], '\'', four);
      ReadsQuotedBody(a[1..], w + [c], rest);
      assert w + a == w + [c] + a[1..];
      if c == '\'' {
        assert ReplaceAll(a, ['\''], four) + rest == four + (tail + rest);
        QuoteInQuotes(w, tail + rest);
      } else {
        assert ReplaceAll(a, ['\''], four) + rest == [c] + (tail + rest);
        OrdinaryInQuotes(c, w, tail + rest);
      }
    }
  }

  lemma ReadsQuoted(a: string, rest: string)
    ensures Tokens(Quoted(a) + rest, Between) == Tokens(rest, InWord(a))
  {
    var body := ReplaceAll(a, ['\''], ['\'', '\\', '\'', '\'']);
    assert Quoted(a) + rest == ['\''] + (body + (['\''] + rest));
    OpeningQuote(Between, body + (['\''] + rest));
    ReadsQuotedBody(a, "", ['\''] + rest);
    assert "" + a == a;
    ClosingQuote(a, rest);
  }

  lemma BlankEndsWord(w: string, rest: string)
    ensures Tokens([' '] + rest, InWord(w)) == Delimit(InWord(w), Tokens(rest, Between))
  {
    assert ([' '] + rest)[1..] == rest;
  }

  lemma QuotedAllIs(args: seq<string>)
    ensures |QuotedAll(args)| == |args|
    ensures args != [] ==> QuotedAll(args)[0] == Quoted(args[0]) && QuotedAll(args)[1..] == QuotedAll(args[1..])
  {}

  /** Shell quoting round trip: for every argument list, a shell that splits the joined
      line into words gets exactly the arguments. */
  lemma {:induction false} ShellReadsBack(args: seq<string>)
    ensures Tokens(JoinWords(QuotedAll(args)), Between) == Some(args)
  {
    if args != [] {
      var words := QuotedAll(args);
      QuotedAllIs(args);
      if |args| == 1 {
        ReadsQuoted(args[0], "");
        assert Quoted(args[0]) + "" == Quoted(args[0]) && args == [args[0]];
      } else {
        var rest := JoinWords(words[1..]);
        assert JoinWords(words) == Quoted(args[0]) + ([' '] + rest);
        ReadsQuoted(args[0], [' '] + rest);
        BlankEndsWord(args[0], rest);
        ShellReadsBack(args[1..]);
        assert args == [args[0]] + args[1..];
      }
    }
  }

  // --- Backslash escapes ---

  /** Escape backslashes, then the delimiter. */
  function Escaped(s: string, q: char): string {
    ReplaceAll(ReplaceAll(s, ['\\'], ['\\', '\\']), [q], ['\\', q])
  }

  function EscapedChar(c: char, q: char): string {
    if c == '\\' || c == q then ['\\', c] else [c]
  }

  lemma EscapedHead(c: char, s: string, q: char)
    requires q != '\\'
    ensures Escaped([c] + s, q) == EscapedChar(c, q) + Escaped(s, q)
  {
    var inner := ReplaceAll(s, ['\\'], ['\\', '\\']);
    ReplaceHead(c, s, '\\', ['\\', '\\']);
    if c == '\\' {
      assert ['\\', '\\'] + inner == ['\\'] + (['\\'] + inner);
      ReplaceHead('\\', ['\\'] + inner, q, ['\\', q]);
      ReplaceHead('\\', inner, q, ['\\', q]);
    } else {
      ReplaceHead(c, inner, q, ['\\', q]);
    }
  }

  /** Read up to an unescaped delimiter; `decode` says what an escaped character stands for. */
  function ReadUntil(s: string, q: char, decode: char -> char): Option<(string, string)>
    decreases |s|
  {
    if s == "" then None
    else if s[0] == q then Some(("", s[1..]))
    else if s[0] == '\\' then if |s| == 1 then None else Push(decode(s[1]), ReadUntil(s[2..], q, decode))
    else Push(s[0], ReadUntil(s[1..], q, decode))
  }

  function Push(c: char, r: Option<(string, string)>): Option<(string, string)> {
    if r.Some? then Some(([c] + r.value.0, r.value.1)) else None
  }

  lemma ReadHead(c: char, rest: string, q: char, decode: char -> char)
    requires q != '\\' && decode('\\') == '\\' && decode(q) == q
    ensures ReadUntil(EscapedChar(c, q) + rest, q, decode) == Push(c, ReadUntil(rest, q, decode))
  {
    var s := EscapedChar(c, q) + rest;
    if c == '\\' || c == q { assert s[2..] == rest; } else { assert s[1..] == rest; }
  }

  /** What is escaped and then delimited reads back as it was, up to exactly that delimiter. */
  lemma {:induction false} EscapedReadsBack(s: string, q: char, decode: char -> char, rest: string)
    requires q != '\\' && decode('\\') == '\\' && decode(q) == q
    ensures ReadUntil(Escaped(s, q) + [q] + rest, q, decode) == Some((s, rest))
  {
    if s == "" {
      assert Escaped(s, q) + [q] + rest == [q] + rest;
      assert ([q] + rest)[1..] == rest;
    } else {
      var tail := Escaped(s[1..], q) + [q] + rest;
      assert s == [s[0]] + s[1..];
      EscapedHead(s[0], s[1..], q);
      assert Escaped(s, q) + [q] + rest == EscapedChar(s[0], q) + tail;
      EscapedReadsBack(s[1..], q, decode, rest);
      ReadHead(s[0], tail, q, decode);
    }
  }

  /** `osaQuote`. */
  function OsaQuote(s: string): string {
    ['"'] + Escaped(s, '"') + ['"']
  }

  /** The escapes of an AppleScript string literal. */
  function OsaDecode(c: char): char {
    if c == 'n' then '\n' else if c == 't' then '\t' else if c == 'r' then '\r' else c
  }

  function ReadOsa(s: string): Option<(string, string)> {
    if s != "" && s[0] == '"' then ReadUntil(s[1..], '"', OsaDecode) else None
  }

  /** A quoted string is one AppleScript literal with the original as its value. */
  lemma OsaReadsBack(s: string, rest: string)
    ensures ReadOsa(OsaQuote(s) + rest) == Some((s, rest))
  {
    EscapedReadsBack(s, '"', OsaDecode, rest);
    assert (OsaQuote(s) + rest)[1..] == Escaped(s, '"') + ['"'] + rest;
  }

  /** The command `osascript` hands to the shell splits into the original arguments. */
  lemma OsaShellReadsBack(args: seq<string>, rest: string)
    ensures var r := ReadOsa(OsaQuote(JoinWords(QuotedAll(args))) + rest);
            r.Some? && r.value.1 == rest && Tokens(r.value.0, Between) == Some(args)
  {
    OsaReadsBack(JoinWords(QuotedAll(args)), rest);
    ShellReadsBack(args);
  }

  // --- CEF ---

  function Fields(fields: seq<string>): string {
    if fields == [] then "" else Escaped(fields[0], '|') + ['|'] + Fields(fields[1..])
  }

  /** `cefLine`: the escaped header fields, a numeric severity, then the extension as it is. */
  function CefLine(prefix: string, header: seq<string>, severity: nat, extension: string): string {
    prefix + ['|'] + (Fields(header) + (Decimal(severity) + ['|'] + extension))
  }

  function AsItIs(c: char): char {
    c
  }

  datatype Header = Header(fields: seq<string>, rest: string)

  /** Read `n` header fields. */
  function ReadFields(s: string, n: nat): Option<Header>
    decreases n
  {
    if n == 0 then Some(Header([], s))
    else
      match ReadUntil(s, '|', AsItIs)
      case None => None
      case Some(f) =>
        match ReadFields(f.1, n - 1)
        case None => None
        case Some(h) => Some(Header([f.0] + h.fields, h.rest))
  }

  lemma FieldsHead(f: string, fs: seq<string>, rest: string)
    ensures Fields([f] + fs) + rest == Escaped(f, '|') + ['|'] + (Fields(fs) + rest)
  {
    assert ([f] + fs)[1..] == fs;
  }

  lemma ReadOneMore(s: string, n: nat, f: string, tail: string, h: Header)
    requires ReadUntil(s, '|', AsItIs) == Some((f, tail)) && ReadFields(tail, n) == Some(h)
    ensures ReadFields(s, n + 1) == Some(Header([f] + h.fields, h.rest))
  {}

  lemma {:induction false} FieldsReadBack(fields: seq<string>, rest: string)
    ensures ReadFields(Fields(fields) + rest, |fields|) == Some(Header(fields, rest))
  {
    if fields == [] {
      assert Fields(fields) + rest == rest;
    } else {
      var f, fs := fields[0], fields[1..];
      assert [f] + fs == fields;
      FieldsHead(f, fs, rest);
      EscapedReadsBack(f, '|', AsItIs, Fields(fs) + rest);
      FieldsReadBack(fs, rest);
      ReadOneMore(Fields(fields) + rest, |fs|, f, Fields(fs) + rest, Header(fs, rest));
    }
  }

  lemma {:induction false} NothingToEscape(s: string, q: char)
    requires q != '\\' && q !in s && '\\' !in s
    ensures Escaped(s, q) == s
  {
    if s != "" {
      NothingToEscape(s[1..], q);
      assert s == [s[0]] + s[1..];
      EscapedHead(s[0], s[1..], q);
    }
  }

  lemma Regroup(a: string, b: string, c: string, d: string)
    ensures a + (b + c) + d == a + (b + c + d)
  {}

  /** Severity and prefix need no escaping, so the line is its fields followed by the extension. */
  lemma LineIsFields(prefix: string, header: seq<string>, severity: string, extension: string)
    requires '|' !in prefix && '\\' !in prefix && '|' !in severity && '\\' !in severity
    ensures prefix + ['|'] + (Fields(header) + (severity + ['|'] + extension)) ==
            Fields([prefix] + (header + [severity])) + extension
  {
    assert Escaped(prefix, '|') == prefix by { NothingToEscape(prefix, '|'); }
    assert Escaped(severity, '|') == severity by { NothingToEscape(severity, '|'); }
    assert Fields(header + [severity]) == Fields(header) + (severity + ['|']) by { FieldsAppend(header, severity); }
    FieldsHead(prefix, header + [severity], extension);
    Regroup(Fields(header), severity, ['|'], extension);
  }

  /** Whatever the header fields hold, a CEF reader finds each of them, the severity and the extension intact. */
  lemma CefReadsBack(prefix: string, header: seq<string>, severity: nat, extension: string)
    requires '|' !in prefix && '\\' !in prefix
    ensures ReadFields(CefLine(prefix, header, severity, extension), |header| + 2) ==
            Some(Header([prefix] + (header + [Decimal(severity)]), extension))
  {
    LineIsFields(prefix, header, Decimal(severity), extension);
    FieldsReadBack([prefix] + (header + [Decimal(severity)]), extension);
  }

  lemma {:induction false} FieldsAppend(fields: seq<string>, f: string)
    ensures Fields(fields + [f]) == Fields(fields) + (Escaped(f, '|') + ['|'])
  {
    if fields == [] {
      assert [f][1..] == [] && fields + [f] == [f];
    } else {
      FieldsAppend(fields[1..], f);
      assert (fields + [f])[1..] == fields[1..] + [f];
    }
  }
}

/**
 The command line given to a remote shell, and the part of the Shell Command Language (POSIX.1-2017,
 sections 2.2.2, 2.2.3 and 2.3) that reads it back into words.
 */
module ShellQuoting {
  import opened Wrappers

  // ----- Building the command -----

  /** Every single quote leaves the quotation, is quoted by double quotes, and enters it again. */
  function QuotesReplaced(value: string): string {
    if value == "" then ""
    else (if value[0] == '\'' then "'\"'\"'" else [value[0]]) + QuotesReplaced(value[1..])
  }

  function ShellWord(value: string): string {
    "'" + QuotesReplaced(value) + "'"
  }

  function ServingCommand(executable: string): string {
    "exec " + ShellWord(executable) + " " + ShellWord("serve") + " " + ShellWord("--stdio")
  }

  function BuildRemoteCommand(cwd: Option<string>, executable: string): string {
    match cwd
    case Some(dir) => "cd " + ShellWord(dir) + " && " + ServingCommand(executable)
    case None => ServingCommand(executable)
  }

  // ----- Reading it: one character at a time -----

  datatype Token = Word(text: string) | Operator(text: string)

  /** Where the reader stands: between tokens, in a word (bare or quoted), or after one `&`. */
  datatype Mode = Between | Bare(word: string) | Single(word: string) | Double(word: string) | Ampersand

  /** `Refused`: the text needs rules beyond words, quotes, blanks and `&` (sections 2.2.1, 2.6, 2.7). */
  datatype Lexer = Reading(tokens: seq<Token>, mode: Mode) | Refused

  /** Characters that may mean more than themselves outside quotes (section 2.2). */
  predicate IsSpecial(c: char) {
    || c == '|' || c == '&' || c == ';' || c == '<' || c == '>' || c == '(' || c == ')' || c == '$' || c == '`'
    || c == '\\' || c == '"' || c == '\'' || c == ' ' || c == '\t' || c == '\n' || c == '*' || c == '?'
    || c == '[' || c == '#' || c == '~' || c == '=' || c == '%' || c == '!' || c == '{' || c == '}'
  }

  function Start(tokens: seq<Token>, c: char): Lexer {
    if c == ' ' then Reading(tokens, Between)
    else if c == '\'' then Reading(tokens, Single(""))
    else if c == '"' then Reading(tokens, Double(""))
    else if c == '&' then Reading(tokens, Ampersand)
    else if !IsSpecial(c) then Reading(tokens, Bare([c]))
    else Refused
  }

  function Step(l: Lexer, c: char): Lexer {
    match l
    case Refused => Refused
    case Reading(tokens, Between) => Start(tokens, c)
    case Reading(tokens, Bare(word)) =>
      if c == '\'' then Reading(tokens, Single(word))
      else if c == '"' then Reading(tokens, Double(word))
      else if c == ' ' || c == '&' then Start(tokens + [Word(word)], c)
      else if !IsSpecial(c) then Reading(tokens, Bare(word + [c]))
      else Refused
    case Reading(tokens, Single(word)) =>
      if c == '\'' then Reading(tokens, Bare(word)) else Reading(tokens, Single(word + [c]))
    case Reading(tokens, Double(word)) =>
      if c == '"' then Reading(tokens, Bare(word))
      else if c == '$' || c == '`' || c == '\\' then Refused
      else Reading(tokens, Double(word + [c]))
    case Reading(tokens, Ampersand) =>
      if c == '&' then Reading(tokens + [Operator("&&")], Between)
      else Start(tokens + [Operator("&")], c)
  }

  function Read(l: Lexer, s: string): Lexer
    decreases |s|
  {
    if s == "" then l else Read(Step(l, s[0]), s[1..])
  }

  /** The tokens of a whole input; an open quotation is an error. */
  function Tokens(s: string): Option<seq<Token>> {
    match Read(Reading([], Between), s)
    case Reading(tokens, Between) => Some(tokens)
    case Reading(tokens, Bare(word)) => Some(tokens + [Word(word)])
    case Reading(tokens, Ampersand) => Some(tokens + [Operator("&")])
    case _ => None
  }

  // ----- What the quoting promises -----

  lemma {:induction false} ReadConcat(l: Lexer, a: string, b: string)
    ensures Read(l, a + b) == Read(Read(l, a), b)
    decreases |a|
  {
    if a == "" {
      assert a + b == b;
    } else {
      assert (a + b)[1..] == a[1..] + b;
      ReadConcat(Step(l, a[0]), a[1..], b);
    }
  }

  lemma ReadOne(l: Lexer, c: char)
    ensures Read(l, [c]) == Step(l, c)
  {
    assert [c][1..] == "";
  }

  lemma {:induction false} QuoteIsReadBack(tokens: seq<Token>, word: string)
    ensures Read(Reading(tokens, Single(word)), "'\"'\"'") == Reading(tokens, Single(word + ['\'']))
  {
    var q := "'\"'\"'";
    var l0 := Reading(tokens, Single(word));
    var l1, l2, l3 := Step(l0, '\''), Step(Step(l0, '\''), '"'), Reading(tokens, Double(word + ['\'']));
    var l4 := Step(l3, '"');
    assert q[1..][1..][1..][1..][1..] == "";
    assert Read(l0, q) == Read(l1, q[1..]);
    assert Read(l1, q[1..]) == Read(l2, q[1..][1..]);
    assert l2 == Reading(tokens, Double(word)) && l3 == Step(l2, '\'');
    assert Read(l2, q[1..][1..]) == Read(l3, q[1..][1..][1..]);
    assert Read(l3, q[1..][1..][1..]) == Read(l4, q[1..][1..][1..][1..]);
    assert Read(l4, q[1..][1..][1..][1..]) == Read(Step(l4, '\''), q[1..][1..][1..][1..][1..]);
  }

  lemma {:induction false} QuotedTextIsReadBack(tokens: seq<Token>, word: string, value: string)
    ensures Read(Reading(tokens, Single(word)), QuotesReplaced(value)) == Reading(tokens, Single(word + value))
    decreases |value|
  {
    if value == "" {
      assert word + value == word;
    } else {
      var c, left := value[0], value[1..];
      var piece := if c == '\'' then "'\"'\"'" else [c];
      var l := Reading(tokens, Single(word));
      ReadConcat(l, piece, QuotesReplaced(left));
      QuoteIsReadBack(tokens, word);
      ReadOne(l, c);
      assert word + [c] + left == word + value;
      QuotedTextIsReadBack(tokens, word + [c], left);
    }
  }

  /** Wherever a word may start, the quoted value is read as that value, with nothing else. */
  lemma ShellWordIsReadBack(tokens: seq<Token>, value: string)
    ensures Read(Reading(tokens, Between), ShellWord(value)) == Reading(tokens, Bare(value))
  {
    var l := Reading(tokens, Between);
    ReadConcat(l, "'" + QuotesReplaced(value), "'");
    ReadConcat(l, "'", QuotesReplaced(value));
    ReadOne(l, '\'');
    QuotedTextIsReadBack(tokens, "", value);
    assert "" + value == value;
    ReadOne(Reading(tokens, Single(value)), '\'');
  }

  lemma {:induction false} PlainIsReadBack(tokens: seq<Token>, word: string, text: string)
    requires forall k: nat :: k < |text| ==> !IsSpecial(text[k])
    ensures Read(Reading(tokens, Bare(word)), text) == Reading(tokens, Bare(word + text))
    decreases |text|
  {
    if text == "" {
      assert word + text == word;
    } else {
      assert word + [text[0]] + text[1..] == word + text;
      PlainIsReadBack(tokens, word + [text[0]], text[1..]);
    }
  }

  lemma BlankEndsWord(tokens: seq<Token>, text: string, word: string)
    requires Read(Reading(tokens, Between), text) == Reading(tokens, Bare(word))
    ensures Read(Reading(tokens, Between), text + " ") == Reading(tokens + [Word(word)], Between)
  {
    ReadConcat(Reading(tokens, Between), text, " ");
    ReadOne(Reading(tokens, Bare(word)), ' ');
  }

  /** A shell word and the blank behind it. */
  lemma ArgumentIsReadBack(tokens: seq<Token>, value: string)
    ensures Read(Reading(tokens, Between), ShellWord(value) + " ") == Reading(tokens + [Word(value)], Between)
  {
    ShellWordIsReadBack(tokens, value);
    BlankEndsWord(tokens, ShellWord(value), value);
  }

  lemma PlainStartsWord(tokens: seq<Token>, c: char)
    requires !IsSpecial(c)
    ensures Read(Reading(tokens, Between), [c]) == Reading(tokens, Bare([c]))
  {
    ReadOne(Reading(tokens, Between), c);
  }

  lemma NameIsReadBack(tokens: seq<Token>, name: string)
    requires |name| > 0 && forall k: nat :: k < |name| ==> !IsSpecial(name[k])
    ensures Read(Reading(tokens, Between), name + " ") == Reading(tokens + [Word(name)], Between)
  {
    hide Read, IsSpecial;
    var first, left := [name[0]], name[1..];
    assert name == first + left;
    ReadConcat(Reading(tokens, Between), first, left);
    PlainStartsWord(tokens, name[0]);
    PlainIsReadBack(tokens, first, left);
    BlankEndsWord(tokens, name, name);
  }

  lemma CommandNameIsReadBack(tokens: seq<Token>, name: string)
    requires name == "cd" || name == "exec"
    ensures Read(Reading(tokens, Between), name + " ") == Reading(tokens + [Word(name)], Between)
  {
    hide Read;
    assert !IsSpecial('c') && !IsSpecial('d') && !IsSpecial('e') && !IsSpecial('x');
    NameIsReadBack(tokens, name);
  }

  lemma AndIsReadBack(tokens: seq<Token>)
    ensures Read(Reading(tokens, Between), "&& ") == Reading(tokens + [Operator("&&")], Between)
  {
    var l0, l1, l2 := Reading(tokens, Between), Reading(tokens, Ampersand), Reading(tokens + [Operator("&&")], Between);
    ReadConcat(l0, "&", "& ");
    ReadConcat(l1, "&", " ");
    ReadOne(l0, '&');
    ReadOne(l1, '&');
    ReadOne(l2, ' ');
    assert "&" + "& " == "&& " && "&" + " " == "& ";
  }

  function Serving(executable: string): seq<Token> {
    [Word("exec"), Word(executable), Word("serve"), Word("--stdio")]
  }

  lemma ServingIsReadBack(tokens: seq<Token>, executable: string)
    ensures Read(Reading(tokens, Between), ServingCommand(executable))
         == Reading(tokens + Serving(executable)[..3], Bare("--stdio"))
  {
    hide Read, ShellWord;
    var a, b, c := "exec" + " ", ShellWord(executable) + " ", ShellWord("serve") + " ";
    var t1 := tokens + [Word("exec")];
    var t2 := t1 + [Word(executable)];
    var t3 := t2 + [Word("serve")];
    CommandNameIsReadBack(tokens, "exec");
    ArgumentIsReadBack(t1, executable);
    ArgumentIsReadBack(t2, "serve");
    ShellWordIsReadBack(t3, "--stdio");
    Read4(Reading(tokens, Between), a, b, c, ShellWord("--stdio"));
    ServingPieces(ShellWord(executable), ShellWord("serve"), ShellWord("--stdio"));
    assert tokens + Serving(executable)[..3] == t3;
  }

  lemma ServingPieces(x: string, y: string, z: string)
    ensures "exec " + x + " " + y + " " + z == ("exec" + " ") + (x + " ") + (y + " ") + z
  {
    assert "exec " == "exec" + " ";
  }

  lemma CommandPieces(dir: string, left: string)
    ensures "cd " + dir + " && " + left == ("cd" + " ") + (dir + " ") + "&& " + left
  {
    assert "cd " == "cd" + " " && " && " == " " + "&& ";
  }

  lemma Read4(l: Lexer, a: string, b: string, c: string, d: string)
    ensures Read(l, a + b + c + d) == Read(Read(Read(Read(l, a), b), c), d)
  {
    ReadConcat(l, a + b + c, d);
    ReadConcat(l, a + b, c);
    ReadConcat(l, a, b);
  }

  /** The remote shell runs the executable, in the directory if there is one, whatever their names hold. */
  lemma RemoteCommandIsReadBack(cwd: Option<string>, executable: string)
    ensures Tokens(BuildRemoteCommand(cwd, executable)) ==
            match cwd
            case Some(dir) => Some([Word("cd"), Word(dir), Operator("&&")] + Serving(executable))
            case None => Some(Serving(executable))
  {
    hide Read, ShellWord, ServingCommand;
    match cwd
    case Some(dir) =>
      var t1, t2, t3 := [Word("cd")], [Word("cd"), Word(dir)], [Word("cd"), Word(dir), Operator("&&")];
      CommandNameIsReadBack([], "cd");
      ArgumentIsReadBack(t1, dir);
      AndIsReadBack(t2);
      assert [] + [Word("cd")] == t1 && t1 + [Word(dir)] == t2 && t2 + [Operator("&&")] == t3;
      ServingIsReadBack(t3, executable);
      Read4(Reading([], Between), "cd" + " ", ShellWord(dir) + " ", "&& ", ServingCommand(executable));
      CommandPieces(ShellWord(dir), ServingCommand(executable));
      assert t3 + Serving(executable)[..3] + [Word("--stdio")] == t3 + Serving(executable);
    case None =>
      ServingIsReadBack([], executable);
      assert [] + Serving(executable)[..3] + [Word("--stdio")] == Serving(executable);
  }

  /** Different configurations give different commands. */
  lemma RemoteCommandIsInjective(cwd: Option<string>, executable: string, cwd': Option<string>, executable': string)
    requires BuildRemoteCommand(cwd, executable) == BuildRemoteCommand(cwd', executable')
    ensures cwd == cwd' && executable == executable'
  {
    hide Tokens, BuildRemoteCommand;
    RemoteCommandIsReadBack(cwd, executable);
    RemoteCommandIsReadBack(cwd', executable');
    var all, all' := Tokens(BuildRemoteCommand(cwd, executable)).value, Tokens(BuildRemoteCommand(cwd', executable')).value;
    assert all[0] == all'[0] && |all| == |all'|;
    assert all[1] == all'[1];
    assert cwd.Some? ==> all[4] == all'[4];
  }

  lemma ShellWordIsOneWord(value: string)
    ensures Tokens(ShellWord(value)) == Some([Word(value)])
  {
    ShellWordIsReadBack([], value);
    assert [] + [Word(value)] == [Word(value)];
  }
}

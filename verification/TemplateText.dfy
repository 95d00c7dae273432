/** Templates written down: literal text, variables and function-like variables with their
    arguments, and what they expand to. */
module TemplateText {
  import opened Common
  import opened TemplateVars
  import RuleParser

  /** An argument: bare characters, possibly followed by something in quotes. */
  datatype ArgText = ArgText(bare: string, q: Option<char>, quoted: string)

  predicate BareChar(c: char) {
    c !in {'\"', '\'', '`', ')', ',', ' ', '\t', '\n', '\r'}
  }

  predicate GoodArg(a: ArgText) {
    && (forall i :: 0 <= i < |a.bare| ==> BareChar(a.bare[i]))
    && match a.q
       case None => a.bare != "" && a.quoted == ""
       case Some(q) => q in {'\"', '\'', '`'} && q !in a.quoted
  }

  function WriteArg(a: ArgText): string {
    a.bare + (if a.q.None? then "" else [a.q.value] + (a.quoted + [a.q.value]))
  }

  function ValueOfArg(a: ArgText): string {
    a.bare + a.quoted
  }

  predicate AreBlanks(blanks: string) {
    forall i :: 0 <= i < |blanks| ==> blanks[i] in {' ', '\t', '\n', '\r'}
  }

  /** Arguments separated by commas and blanks, and the closing parenthesis. */
  function WriteList(args: seq<ArgText>, blanks: string): string {
    if args == [] then ")"
    else if |args| == 1 then WriteArg(args[0]) + ")"
    else WriteArg(args[0]) + ("," + (blanks + WriteList(args[1..], blanks)))
  }

  function ValuesOf(args: seq<ArgText>): seq<string> {
    if args == [] then [] else [ValueOfArg(args[0])] + ValuesOf(args[1..])
  }

  function NameOf(source: Source): string {
    match source
    case Header => "header"
    case ResponseHeader => "resp_header"
    case Query => "arg"
    case Form => "form"
    case PostForm => "postform"
  }

  /** `$$` and `${` are for a dollar and for what the rule parser makes of `${`. */
  datatype Piece =
    | Text(text: string)
    | Brace
    | Variable(name: string)
    | Function(source: Source, args: seq<ArgText>, blanks: string)

  function WritePiece(p: Piece): string {
    match p
    case Text(text) => DoubleDollars(text)
    case Brace => "${"
    case Variable(name) => "$" + name
    case Function(source, args, blanks) => "$" + (NameOf(source) + ("(" + WriteList(args, blanks)))
  }

  function WriteTemplate(ps: seq<Piece>): string {
    if ps == [] then "" else WritePiece(ps[0]) + WriteTemplate(ps[1..])
  }

  /** Names are made of letters and underscores: where their ranges begin and end. */
  lemma {:induction false} NameCharRanges(c: char)
    ensures c in {'a', 'b', 'y', 'z', 'A', 'B', 'Y', 'Z', '_'} ==> IsNameChar(c)
    ensures c in {'@', '[', '`', '{', '^', '0', '9', '-', '.', '$', '('} || c > 'z' ==> !IsNameChar(c)
  {}

  predicate IsName(name: string) {
    name != "" && forall i :: 0 <= i < |name| ==> IsNameChar(name[i])
  }

  predicate GoodPiece(statics: set<string>, p: Piece) {
    match p
    case Text(_) => true
    case Brace => true
    case Variable(name) =>
      IsName(name) && name in statics && name !in {"header", "resp_header", "arg", "form", "postform"}
    case Function(_, args, blanks) => AreBlanks(blanks) && forall i :: 0 <= i < |args| ==> GoodArg(args[i])
  }

  predicate StartsName(s: string) {
    s != "" && IsNameChar(s[0])
  }

  /** What follows the name of a variable does not continue it. */
  predicate GoodTemplate(statics: set<string>, ps: seq<Piece>, tail: string) {
    ps == [] ||
    (&& GoodPiece(statics, ps[0])
     && (ps[0].Variable? ==> !StartsName(WriteTemplate(ps[1..]) + tail))
     && GoodTemplate(statics, ps[1..], tail))
  }

  function ValueOf(req: Request, p: Piece): Result {
    match p
    case Text(text) => Expanded(text)
    case Brace => Expanded("${")
    case Variable(name) => Expanded(req.statically(name))
    case Function(source, args, _) => Lookup(req, source, ValuesOf(args))
  }

  /** The values one after the other, up to the first that fails; then `rest`. */
  function AllValues(req: Request, ps: seq<Piece>, rest: Result): Result {
    if ps == [] then rest
    else Then(ValueOf(req, ps[0]), AllValues(req, ps[1..], rest))
  }

  function Then(v: Result, rest: Result): Result {
    if v.Expanded? then Prefixed(v.text, rest) else v
  }

  // ---------------------------------------------------------------- positions

  /** The text from `i` on, character by character. */
  predicate Ends(src: string, i: nat, text: string) {
    i + |text| == |src| && forall k :: 0 <= k < |text| ==> text[k] == src[i + k]
  }

  lemma {:induction false} EndsAfter(src: string, i: nat, a: string, b: string)
    requires Ends(src, i, a + b)
    ensures i + |a| <= |src| && (forall k :: 0 <= k < |a| ==> a[k] == src[i + k]) && Ends(src, i + |a|, b)
  {
    var text := a + b;
    assert forall k :: 0 <= k < |a| ==> a[k] == text[k];
    assert forall k :: 0 <= k < |b| ==> b[k] == text[|a| + k];
  }

  lemma {:induction false} EndsFirst(src: string, i: nat, c: char, b: string)
    requires Ends(src, i, [c] + b)
    ensures i < |src| && src[i] == c && Ends(src, i + 1, b)
  {
    EndsAfter(src, i, [c], b);
    assert [c][0] == src[i + 0];
  }

  lemma {:induction false} EndsSplitFirst(src: string, i: nat, text: string, rest: string)
    requires text != "" && Ends(src, i, text + rest)
    ensures i < |src| && src[i] == text[0] && Ends(src, i + 1, text[1..] + rest)
  {
    assert text + rest == [text[0]] + (text[1..] + rest);
    EndsFirst(src, i, text[0], text[1..] + rest);
  }

  // ---------------------------------------------------------------- reading arguments

  lemma {:induction false} BareRead(src: string, i: nat, text: string, rest: string, arg: string, args: seq<string>)
    requires Ends(src, i, text + rest) && forall k :: 0 <= k < |text| ==> BareChar(text[k])
    ensures Ends(src, i + |text|, rest)
    ensures ArgsFrom(src, i, None, arg, args) == ArgsFrom(src, i + |text|, None, arg + text, args)
    decreases |text|
  {
    if text == "" {
      assert text + rest == rest && arg + text == arg;
    } else {
      EndsSplitFirst(src, i, text, rest);
      BareRead(src, i + 1, text[1..], rest, arg + [text[0]], args);
      assert (arg + [text[0]]) + text[1..] == arg + text;
    }
  }

  lemma {:induction false} BlanksRead(src: string, i: nat, blanks: string, rest: string, args: seq<string>)
    requires Ends(src, i, blanks + rest) && AreBlanks(blanks)
    ensures Ends(src, i + |blanks|, rest)
    ensures ArgsFrom(src, i, None, "", args) == ArgsFrom(src, i + |blanks|, None, "", args)
    decreases |blanks|
  {
    if blanks == "" {
      assert blanks + rest == rest;
    } else {
      EndsSplitFirst(src, i, blanks, rest);
      BlanksRead(src, i + 1, blanks[1..], rest, args);
    }
  }

  lemma {:induction false} QuotedRead(src: string, i: nat, q: char, text: string, rest: string, arg: string, args: seq<string>)
    requires Ends(src, i, text + ([q] + rest)) && q !in text
    ensures Ends(src, i + |text| + 1, rest)
    ensures ArgsFrom(src, i, Some(q), arg, args) == ArgsFrom(src, i + |text| + 1, None, "", args + [arg + text])
    decreases |text|
  {
    if text == "" {
      assert text + ([q] + rest) == [q] + rest && arg + text == arg;
      EndsFirst(src, i, q, rest);
    } else {
      EndsSplitFirst(src, i, text, [q] + rest);
      QuotedRead(src, i + 1, q, text[1..], rest, arg + [text[0]], args);
      assert (arg + [text[0]]) + text[1..] == arg + text;
    }
  }

  /** How reading goes on behind an argument, at a comma or parenthesis `c`. */
  function Behind(src: string, k: nat, c: char, args: seq<string>): Args
    requires k < |src|
  {
    if c == ',' then ArgsFrom(src, k + 1, None, "", args) else Args(args, k)
  }

  lemma {:induction false} BareArgRead(src: string, i: nat, text: string, c: char, rest: string, args: seq<string>)
    requires text != "" && (forall k :: 0 <= k < |text| ==> BareChar(text[k]))
    requires Ends(src, i, text + ([c] + rest)) && (c == ',' || c == ')')
    ensures var k := i + |text|;
            && k < |src| && Ends(src, k + 1, rest)
            && ArgsFrom(src, i, None, "", args) == Behind(src, k, c, args + [text])
  {
    BareRead(src, i, text, [c] + rest, "", args);
    assert "" + text == text;
    EndsFirst(src, i + |text|, c, rest);
  }

  lemma {:induction false} QuotedArgRead(src: string, i: nat, bare: string, q: char, text: string, c: char, rest: string, args: seq<string>)
    requires (forall k :: 0 <= k < |bare| ==> BareChar(bare[k])) && q in {'\"', '\'', '`'} && q !in text
    requires Ends(src, i, bare + ([q] + (text + ([q] + ([c] + rest))))) && (c == ',' || c == ')')
    ensures var k := i + |bare| + |text| + 2;
            && k < |src| && Ends(src, k + 1, rest)
            && ArgsFrom(src, i, None, "", args) == Behind(src, k, c, args + [bare + text])
  {
    var j := i + |bare|;
    BareRead(src, i, bare, [q] + (text + ([q] + ([c] + rest))), "", args);
    assert "" + bare == bare;
    EndsFirst(src, j, q, text + ([q] + ([c] + rest)));
    QuotedRead(src, j + 1, q, text, [c] + rest, bare, args);
    NothingMore(src, j + |text| + 2, c, rest, args + [bare + text]);
  }

  lemma {:induction false} NothingMore(src: string, k: nat, c: char, rest: string, args: seq<string>)
    requires Ends(src, k, [c] + rest) && (c == ',' || c == ')')
    ensures k < |src| && Ends(src, k + 1, rest) && ArgsFrom(src, k, None, "", args) == Behind(src, k, c, args)
  {
    EndsFirst(src, k, c, rest);
    assert args + OrNothing("") == args;
  }

  /** One argument up to the comma or parenthesis behind it. */
  lemma {:induction false} ArgRead(src: string, i: nat, a: ArgText, c: char, rest: string, args: seq<string>)
    requires GoodArg(a) && Ends(src, i, WriteArg(a) + ([c] + rest)) && (c == ',' || c == ')')
    ensures var k := i + |WriteArg(a)|;
            && k < |src| && Ends(src, k + 1, rest)
            && ArgsFrom(src, i, None, "", args) == Behind(src, k, c, args + [ValueOfArg(a)])
  {
    if a.q.None? {
      assert WriteArg(a) == a.bare && ValueOfArg(a) == a.bare;
      BareArgRead(src, i, a.bare, c, rest, args);
    } else {
      ArgParts(a, [c] + rest);
      QuotedArgRead(src, i, a.bare, a.q.value, a.quoted, c, rest, args);
    }
  }

  lemma {:induction false} ArgParts(a: ArgText, rest: string)
    requires a.q.Some?
    ensures WriteArg(a) + rest == a.bare + ([a.q.value] + (a.quoted + ([a.q.value] + rest)))
  {
    var q := a.q.value;
    AppendAssociates(a.bare, [q] + (a.quoted + [q]), rest);
    AppendAssociates([q], a.quoted + [q], rest);
    AppendAssociates(a.quoted, [q], rest);
  }

  /** A whole list: its values, up to the parenthesis before `e`. */
  lemma {:induction false} ListRead(src: string, i: nat, args: seq<ArgText>, blanks: string, rest: string, done: seq<string>, e: nat)
    requires Ends(src, i, WriteList(args, blanks) + rest) && AreBlanks(blanks) && e + |rest| == |src|
    requires forall k :: 0 <= k < |args| ==> GoodArg(args[k])
    ensures e > 0 && ArgsFrom(src, i, None, "", done) == Args(done + ValuesOf(args), e - 1)
    decreases |args|
  {
    if args == [] {
      EmptyListRead(src, i, rest, done, e);
    } else if |args| == 1 {
      LastRead(src, i, args[0], rest, done, e);
      assert ValuesOf(args) == [ValueOfArg(args[0])];
    } else {
      var a, more := args[0], WriteList(args[1..], blanks);
      var j := FirstRead(src, i, a, blanks, more + rest, done, more, rest);
      ListRead(src, j, args[1..], blanks, rest, done + [ValueOfArg(a)], e);
      AppendAssociates(done, [ValueOfArg(a)], ValuesOf(args[1..]));
    }
  }

  lemma {:induction false} EmptyListRead(src: string, i: nat, rest: string, done: seq<string>, e: nat)
    requires Ends(src, i, ")" + rest) && e + |rest| == |src|
    ensures e > 0 && ArgsFrom(src, i, None, "", done) == Args(done + [], e - 1)
  {
    EndsFirst(src, i, ')', rest);
    assert done + OrNothing("") == done + [];
  }

  lemma {:induction false} LastRead(src: string, i: nat, a: ArgText, rest: string, done: seq<string>, e: nat)
    requires GoodArg(a) && Ends(src, i, (WriteArg(a) + ")") + rest) && e + |rest| == |src|
    ensures e > 0 && ArgsFrom(src, i, None, "", done) == Args(done + [ValueOfArg(a)], e - 1)
  {
    AppendAssociates(WriteArg(a), ")", rest);
    ArgRead(src, i, a, ')', rest, done);
  }

  /** An argument, the comma and the blanks behind it. */
  lemma {:induction false} FirstRead(src: string, i: nat, a: ArgText, blanks: string, others: string, done: seq<string>,
                                     more: string, rest: string) returns (j: nat)
    requires GoodArg(a) && AreBlanks(blanks) && others == more + rest
    requires Ends(src, i, (WriteArg(a) + ("," + (blanks + more))) + rest)
    ensures j == i + |WriteArg(a)| + 1 + |blanks| && Ends(src, j, others)
    ensures ArgsFrom(src, i, None, "", done) == ArgsFrom(src, j, None, "", done + [ValueOfArg(a)])
  {
    ListTail(a, blanks, more, rest);
    ArgRead(src, i, a, ',', blanks + others, done);
    j := i + |WriteArg(a)| + 1;
    BlanksRead(src, j, blanks, others, done + [ValueOfArg(a)]);
    j := j + |blanks|;
  }

  lemma {:induction false} ListTail(a: ArgText, blanks: string, more: string, rest: string)
    ensures (WriteArg(a) + ("," + (blanks + more))) + rest == WriteArg(a) + ([','] + (blanks + (more + rest)))
  {
    AppendAssociates(WriteArg(a), "," + (blanks + more), rest);
    AppendAssociates(",", blanks + more, rest);
    AppendAssociates(blanks, more, rest);
  }

  // ---------------------------------------------------------------- reading pieces

  lemma {:induction false} NameRead(src: string, j: nat, name: string, rest: string)
    requires Ends(src, j, name + rest) && (forall i :: 0 <= i < |name| ==> IsNameChar(name[i])) && !StartsName(rest)
    ensures NameEnd(src, j) == j + |name| && Ends(src, j + |name|, rest)
    ensures rest != "" && rest[0] == '(' ==> IndexOf(src, '(', j) == j + |name|
    decreases |name|
  {
    if name == "" {
      assert name + rest == rest;
      assert rest != "" ==> rest[0] == src[j + 0];
    } else {
      EndsSplitFirst(src, j, name, rest);
      NameRead(src, j + 1, name[1..], rest);
    }
  }

  lemma {:induction false} SourceNames(source: Source)
    ensures IsName(NameOf(source)) && SourceOf(NameOf(source)) == Some(source)
  {}

  /** Which function looks where. */
  lemma {:induction false} FunctionNames()
    ensures SourceOf("header") == Some(Header) && SourceOf("resp_header") == Some(ResponseHeader)
    ensures SourceOf("arg") == Some(Query) && SourceOf("form") == Some(Form) && SourceOf("postform") == Some(PostForm)
  {}

  lemma {:induction false} OtherNames(name: string)
    requires name !in {"header", "resp_header", "arg", "form", "postform"}
    ensures SourceOf(name).None?
  {}

  /** A dollar and the whole name behind it. */
  predicate NameAt(src: string, i: nat, name: string) {
    && i + 1 < |src| && src[i] == '$' && IsNameChar(src[i + 1])
    && NameEnd(src, i + 1) == i + 1 + |name| <= |src| && src[i + 1..i + 1 + |name|] == name
  }

  /** What stands at the start of a written variable. */
  lemma {:induction false} NameToken(src: string, i: nat, name: string, rest: string)
    requires Ends(src, i, "$" + (name + rest)) && IsName(name) && !StartsName(rest)
    ensures NameAt(src, i, name) && Ends(src, i + 1, name + rest) && Ends(src, i + 1 + |name|, rest)
    ensures rest != "" && rest[0] == '(' ==> IndexOf(src, '(', i + 1) == i + 1 + |name|
  {
    EndsFirst(src, i, '$', name + rest);
    EndsAfter(src, i + 1, name, rest);
    assert name[0] == src[i + 1 + 0];
    assert src[i + 1..i + 1 + |name|] == name;
    NameRead(src, i + 1, name, rest);
  }

  lemma {:induction false} VariableRead(statics: set<string>, src: string, i: nat, name: string, rest: string)
    requires Ends(src, i, "$" + (name + rest)) && GoodPiece(statics, Variable(name)) && !StartsName(rest)
    ensures i < |src| && TokenAt(statics, src, i) == Static(name, i + 1 + |name|) && Ends(src, i + 1 + |name|, rest)
  {
    NameToken(src, i, name, rest);
    OtherNames(name);
  }

  lemma {:induction false} ArgsRead(src: string, i: nat, source: Source, args: seq<ArgText>, blanks: string,
                                    list: string, rest: string, j: nat)
    requires AreBlanks(blanks) && (forall k :: 0 <= k < |args| ==> GoodArg(args[k])) && list == WriteList(args, blanks)
    requires Ends(src, i, "$" + (NameOf(source) + ("(" + (list + rest)))) && j == i + 2 + |NameOf(source)| + |list|
    ensures i + 1 <= |src| && j > 0 && ArgsOf(src, i + 1) == Args(ValuesOf(args), j - 1) && Ends(src, j, rest)
  {
    ArgsStart(src, i, source, list + rest);
    EndsAfter(src, i + 2 + |NameOf(source)|, list, rest);
    ListRead(src, i + 2 + |NameOf(source)|, args, blanks, rest, [], j);
    NothingBefore(ValuesOf(args));
  }

  lemma {:induction false} FunctionRead(statics: set<string>, src: string, i: nat, source: Source, args: seq<ArgText>, blanks: string,
                                        list: string, rest: string, j: nat)
    requires AreBlanks(blanks) && (forall k :: 0 <= k < |args| ==> GoodArg(args[k])) && list == WriteList(args, blanks)
    requires Ends(src, i, "$" + (NameOf(source) + ("(" + (list + rest)))) && j == i + 2 + |NameOf(source)| + |list|
    ensures i < |src| && TokenAt(statics, src, i) == Dynamic(source, ValuesOf(args), j) && Ends(src, j, rest)
  {
    ArgsRead(src, i, source, args, blanks, list, rest, j);
    SourceNames(source);
    NameToken(src, i, NameOf(source), "(" + (list + rest));
    FunctionToken(statics, src, i, source);
  }

  lemma {:induction false} NothingBefore(values: seq<string>)
    ensures [] + values == values
  {}

  lemma {:induction false} ArgsStart(src: string, i: nat, source: Source, list: string)
    requires Ends(src, i, "$" + (NameOf(source) + ("(" + list)))
    ensures i + 1 <= |src|
    ensures var j := i + 2 + |NameOf(source)|;
            Ends(src, j, list) && ArgsOf(src, i + 1) == ArgsFrom(src, j, None, "", [])
  {
    SourceNames(source);
    NameToken(src, i, NameOf(source), "(" + list);
    EndsFirst(src, i + 1 + |NameOf(source)|, '(', list);
  }

  /** A function's token is decided by its arguments. */
  lemma {:induction false} FunctionToken(statics: set<string>, src: string, i: nat, source: Source)
    requires NameAt(src, i, NameOf(source))
    ensures TokenAt(statics, src, i) == var a := ArgsOf(src, i + 1);
              if a.BadArgs? then Bad(a.error) else Dynamic(source, a.args, a.end + 1)
  {
    SourceNames(source);
  }

  lemma {:induction false} FunctionParts(name: string, list: string, rest: string)
    ensures ("$" + (name + ("(" + list))) + rest == "$" + (name + ("(" + (list + rest)))
  {
    AppendAssociates("$", name + ("(" + list), rest);
    AppendAssociates(name, "(" + list, rest);
    AppendAssociates("(", list, rest);
  }

  lemma {:induction false} PrefixedNothing(r: Result)
    ensures Prefixed("", r) == r
  {
    assert r.Expanded? ==> "" + r.text == r.text;
  }

  lemma {:induction false} CharThenText(text: string, r: Result)
    requires text != ""
    ensures Prefixed([text[0]], Prefixed(text[1..], r)) == Prefixed(text, r)
  {
    PrefixedTwice([text[0]], text[1..], r);
    assert [text[0]] + text[1..] == text;
  }

  /** From `i` on the template gives `v`, and goes on at `j` with the rest. */
  predicate Gives(statics: set<string>, req: Request, src: string, i: nat, v: Result, rest: string, j: nat) {
    Ends(src, j, rest) && Rest(statics, req, src, i) == Then(v, Rest(statics, req, src, j))
  }

  /** What the template gives from `i` on. */
  function Rest(statics: set<string>, req: Request, src: string, i: nat): Result {
    if i <= |src| then ExpandFrom(statics, req, src, i) else Expanded("")
  }

  lemma {:induction false} TokenGives(statics: set<string>, req: Request, src: string, i: nat, t: Token, rest: string)
    requires i < |src| && TokenAt(statics, src, i) == t && !t.Bad? && Ends(src, t.next, rest)
    ensures Gives(statics, req, src, i, Evaluate(req, t), rest, t.next)
  {}

  lemma {:induction false} CharGives(statics: set<string>, req: Request, src: string, i: nat, c: char, rest: string)
    requires Ends(src, i, (if c == '$' then "$$" else [c]) + rest)
    ensures Gives(statics, req, src, i, Expanded([c]), rest, i + (if c == '$' then 2 else 1))
  {
    var first := if c == '$' then "$$" else [c];
    EndsAfter(src, i, first, rest);
    assert first[0] == src[i + 0] && (|first| == 2 ==> first[1] == src[i + 1]);
    TokenGives(statics, req, src, i, Literal([c], i + |first|), rest);
  }

  lemma {:induction false} GivesBoth(statics: set<string>, req: Request, src: string, text: string, i: nat, j: nat, k: nat, rest: string, rest': string)
    requires text != "" && Gives(statics, req, src, i, Expanded([text[0]]), rest, j)
    requires Gives(statics, req, src, j, Expanded(text[1..]), rest', k)
    ensures Gives(statics, req, src, i, Expanded(text), rest', k)
  {
    CharThenText(text, Rest(statics, req, src, k));
  }

  lemma {:induction false} TextGives(statics: set<string>, req: Request, src: string, i: nat, text: string, written: string, rest: string, k: nat)
    requires written == DoubleDollars(text) && Ends(src, i, written + rest) && k == i + |written|
    ensures Gives(statics, req, src, i, Expanded(text), rest, k)
    decreases |text|
  {
    if text == "" {
      assert written + rest == rest;
      PrefixedNothing(Rest(statics, req, src, i));
    } else {
      var first, more := if text[0] == '$' then "$$" else [text[0]], DoubleDollars(text[1..]);
      AppendAssociates(first, more, rest);
      CharGives(statics, req, src, i, text[0], more + rest);
      TextGives(statics, req, src, i + |first|, text[1..], more, rest, k);
      GivesBoth(statics, req, src, text, i, i + |first|, k, more + rest, rest);
    }
  }

  lemma {:induction false} BraceGives(statics: set<string>, req: Request, src: string, i: nat, rest: string)
    requires Ends(src, i, "${" + rest)
    ensures Gives(statics, req, src, i, Expanded("${"), rest, i + 2)
  {
    EndsAfter(src, i, "${", rest);
    assert "${"[0] == src[i + 0] && "${"[1] == src[i + 1];
    TokenGives(statics, req, src, i, Literal("${", i + 2), rest);
  }

  lemma {:induction false} VariableGives(statics: set<string>, req: Request, src: string, i: nat, name: string, rest: string)
    requires Ends(src, i, "$" + (name + rest)) && GoodPiece(statics, Variable(name)) && !StartsName(rest)
    ensures Gives(statics, req, src, i, Expanded(req.statically(name)), rest, i + 1 + |name|)
  {
    VariableRead(statics, src, i, name, rest);
    TokenGives(statics, req, src, i, Static(name, i + 1 + |name|), rest);
  }

  lemma {:induction false} FunctionGives(statics: set<string>, req: Request, src: string, i: nat, source: Source, args: seq<ArgText>,
                                         blanks: string, list: string, rest: string)
    requires AreBlanks(blanks) && (forall k :: 0 <= k < |args| ==> GoodArg(args[k])) && list == WriteList(args, blanks)
    requires Ends(src, i, "$" + (NameOf(source) + ("(" + (list + rest))))
    ensures Gives(statics, req, src, i, Lookup(req, source, ValuesOf(args)), rest, i + 2 + |NameOf(source)| + |list|)
  {
    var j := i + 2 + |NameOf(source)| + |list|;
    FunctionRead(statics, src, i, source, args, blanks, list, rest, j);
    TokenGives(statics, req, src, i, Dynamic(source, ValuesOf(args), j), rest);
  }

  lemma {:induction false} VariableWritten(name: string, rest: string)
    ensures WritePiece(Variable(name)) + rest == "$" + (name + rest) && |WritePiece(Variable(name))| == 1 + |name|
  {
    AppendAssociates("$", name, rest);
  }

  lemma {:induction false} FunctionWritten(p: Piece, rest: string)
    requires p.Function?
    ensures var list := WriteList(p.args, p.blanks);
            && WritePiece(p) + rest == "$" + (NameOf(p.source) + ("(" + (list + rest)))
            && |WritePiece(p)| == 2 + |NameOf(p.source)| + |list|
  {
    FunctionParts(NameOf(p.source), WriteList(p.args, p.blanks), rest);
  }

  /** One piece: its value, then the rest. */
  lemma {:induction false} PieceGives(statics: set<string>, req: Request, src: string, i: nat, p: Piece, written: string, rest: string)
    requires GoodPiece(statics, p) && written == WritePiece(p) && (p.Variable? ==> !StartsName(rest))
    requires Ends(src, i, written + rest)
    ensures Gives(statics, req, src, i, ValueOf(req, p), rest, i + |written|)
  {
    match p
    case Text(text) => TextGives(statics, req, src, i, text, written, rest, i + |written|);
    case Brace => BraceGives(statics, req, src, i, rest);
    case Variable(name) =>
      VariableWritten(name, rest);
      VariableGives(statics, req, src, i, name, rest);
    case Function(source, args, blanks) =>
      FunctionWritten(p, rest);
      FunctionGives(statics, req, src, i, source, args, blanks, WriteList(args, blanks), rest);
  }

  /** From `i` on the template gives the values of the pieces, then what comes at `j`. */
  predicate PiecesDone(statics: set<string>, req: Request, src: string, i: nat, ps: seq<Piece>, j: nat) {
    Rest(statics, req, src, i) == AllValues(req, ps, Rest(statics, req, src, j))
  }

  lemma {:induction false} FirstPiece(statics: set<string>, src: string, i: nat, ps: seq<Piece>, tail: string, rest: string)
    requires ps != [] && GoodTemplate(statics, ps, tail) && rest == WriteTemplate(ps[1..]) + tail
    requires Ends(src, i, WriteTemplate(ps) + tail)
    ensures Ends(src, i, WritePiece(ps[0]) + rest)
    ensures GoodPiece(statics, ps[0]) && (ps[0].Variable? ==> !StartsName(rest)) && GoodTemplate(statics, ps[1..], tail)
  {
    AppendAssociates(WritePiece(ps[0]), WriteTemplate(ps[1..]), tail);
  }

  lemma {:induction false} PiecesExpand(statics: set<string>, req: Request, src: string, i: nat, ps: seq<Piece>, tail: string, k: nat)
    requires GoodTemplate(statics, ps, tail) && Ends(src, i, WriteTemplate(ps) + tail) && k + |tail| == |src|
    ensures PiecesDone(statics, req, src, i, ps, k)
    decreases |ps|
  {
    if ps == [] {
      assert WriteTemplate(ps) + tail == tail;
    } else {
      var written, rest := WritePiece(ps[0]), WriteTemplate(ps[1..]) + tail;
      FirstPiece(statics, src, i, ps, tail, rest);
      PieceGives(statics, req, src, i, ps[0], written, rest);
      PiecesExpand(statics, req, src, i + |written|, ps[1..], tail, k);
    }
  }

  /** A written template expands to the values of its pieces, in order: literal text to
      itself, a variable to its value, a function to what the request has under its arguments. */
  lemma {:induction false} TemplateExpands(statics: set<string>, req: Request, ps: seq<Piece>)
    requires GoodTemplate(statics, ps, "")
    ensures Expand(statics, req, WriteTemplate(ps)) == AllValues(req, ps, Expanded(""))
  {
    var src := WriteTemplate(ps);
    assert src + "" == src && Ends(src, 0, src);
    PiecesExpand(statics, req, src, 0, ps, "", |src|);
  }

  // ---------------------------------------------------------------- what a function gives

  /** `v` is `s` up to its first `#`. */
  predicate UpToHash(s: string, v: string) {
    v <= s && '#' !in v && (v == s || s[|v|] == '#')
  }

  lemma {:induction false} FirstHash(s: string, i: nat)
    requires i <= |s|
    ensures '#' !in s[i..IndexOf(s, '#', i)]
    decreases |s| - i
  {
    if i < |s| && s[i] != '#' {
      FirstHash(s, i + 1);
      assert s[i..IndexOf(s, '#', i)] == [s[i]] + s[i + 1..IndexOf(s, '#', i)];
    }
  }

  lemma {:induction false} StripsFragment(s: string)
    ensures UpToHash(s, StripFragment(s))
  {
    FirstHash(s, 0);
    assert s[0..IndexOf(s, '#', 0)] == s[..IndexOf(s, '#', 0)];
  }

  predicate FormFails(req: Request, source: Source) {
    req.formError && source in {Form, PostForm}
  }

  /** Without an index the first value of the key counts; a key without values gives nothing. */
  lemma {:induction false} OneArgument(req: Request, source: Source, key: string)
    ensures var values, r := req.values(source), Lookup(req, source, [key]);
            if FormFails(req, source) then r == Failed(BadForm)
            else r.Expanded? &&
                 if key in values && |values[key]| > 0 then UpToHash(values[key][0], r.text) else r.text == ""
  {
    if key in req.values(source) && |req.values(source)[key]| > 0 {
      StripsFragment(req.values(source)[key][0]);
    }
  }

  /** With an index: the value at it, nothing past the end, and a crash before the start. */
  lemma {:induction false} TwoArguments(req: Request, source: Source, key: string, index: string, n: int)
    requires Atoi(index) == Some(n)
    ensures var values, r := req.values(source), Lookup(req, source, [key, index]);
            if FormFails(req, source) then r == Failed(BadForm)
            else if key in values && n < |values[key]| then
              if n < 0 then r == Panicked else r.Expanded? && UpToHash(values[key][n], r.text)
            else r == Expanded("")
  {
    if key in req.values(source) && 0 <= n < |req.values(source)[key]| {
      StripsFragment(req.values(source)[key][n]);
    }
  }

  /** Any other arguments are an error, whatever the request. */
  lemma {:induction false} OtherArguments(req: Request, source: Source, args: seq<string>)
    ensures |args| == 0 ==> Lookup(req, source, args) == Failed(ExpectArgs)
    ensures |args| > 2 ==> Lookup(req, source, args) == Failed(TooManyArgs)
    ensures |args| == 2 && Atoi(args[1]).None? ==> Lookup(req, source, args) == Failed(InvalidIndex)
  {}

  // ---------------------------------------------------------------- numbers

  function Decimal(n: nat): (s: string)
    ensures s != "" && AllDigits(s)
  {
    var digit := ['0' + (n % 10) as char];
    if n < 10 then digit else Decimal(n / 10) + digit
  }

  lemma {:induction false} DecimalIsRead(n: nat)
    ensures Digits(Decimal(n)) == n
  {
    var s := Decimal(n);
    if n >= 10 {
      DecimalIsRead(n / 10);
      assert s[..|s| - 1] == Decimal(n / 10);
    } else {
      assert s[..0] == "";
    }
  }

  /** Numbers are read as their digits say, with or without a sign, if they fit 64 bits. */
  lemma {:induction false} UnsignedIsRead(s: string)
    requires s != "" && AllDigits(s)
    ensures Atoi(s) == if Digits(s) < 0x8000_0000_0000_0000 then Some(Digits(s)) else None
  {
    assert IsDigit(s[0]);
    DigitsAreNatural(s);
  }

  lemma {:induction false} DigitsAreNatural(s: string)
    requires AllDigits(s)
    ensures Digits(s) >= 0
  {
    if s != "" {
      DigitsAreNatural(s[..|s| - 1]);
    }
  }

  lemma {:induction false} SignedIsRead(s: string, sign: char)
    requires s != "" && AllDigits(s) && (sign == '+' || sign == '-')
    ensures var n := if sign == '-' then -Digits(s) else Digits(s);
            Atoi([sign] + s) == if -0x8000_0000_0000_0000 <= n < 0x8000_0000_0000_0000 then Some(n) else None
  {
    assert ([sign] + s)[1..] == s && ([sign] + s)[0] == sign;
  }

  lemma {:induction false} OthersAreNoNumbers(s: string, i: nat)
    requires i < |s| && !('0' <= s[i] <= '9') && (i == 0 ==> s[0] != '+' && s[0] != '-')
    ensures Atoi(s).None?
  {
    assert !IsDigit(s[i]);
    if s[0] == '-' || s[0] == '+' {
      assert !IsDigit(s[1..][i - 1]);
      assert !AllDigits(s[1..]);
    } else {
      assert !AllDigits(s);
    }
  }

  // ---------------------------------------------------------------- errors

  /** A template that breaks off or goes wrong after good pieces fails there, with the error
      of what is wrong. */
  lemma {:induction false} BadTail(statics: set<string>, req: Request, src: string, i: nat, tail: string)
    requires Ends(src, i, tail)
    ensures tail == "$" ==> ExpandFrom(statics, req, src, i) == Failed(UnterminatedEnvVar)
    ensures |tail| > 1 && tail[0] == '$' && tail[1] !in {'$', '{'} && !IsNameChar(tail[1]) ==>
              ExpandFrom(statics, req, src, i) == Failed(UnterminatedEnvVar)
  {
    if tail != "" {
      assert tail[0] == src[i + 0] && (|tail| > 1 ==> tail[1] == src[i + 1]);
    }
  }

  lemma {:induction false} UnknownVariable(statics: set<string>, req: Request, src: string, i: nat, name: string, rest: string)
    requires Ends(src, i, "$" + (name + rest)) && IsName(name) && !StartsName(rest)
    requires name !in statics && name !in {"header", "resp_header", "arg", "form", "postform"}
    ensures ExpandFrom(statics, req, src, i) == Failed(UnexpectedVar(name))
  {
    NameToken(src, i, name, rest);
    OtherNames(name);
  }

  lemma {:induction false} NeverOpened(src: string, j: nat)
    requires j <= |src| && forall k :: j <= k < |src| ==> src[k] != '('
    ensures IndexOf(src, '(', j) == |src|
    decreases |src| - j
  {
    if j < |src| {
      NeverOpened(src, j + 1);
    }
  }

  /** A function whose arguments cannot be read fails with that error. */
  lemma {:induction false} FunctionFails(statics: set<string>, req: Request, src: string, i: nat, source: Source, rest: string, error: Error)
    requires Ends(src, i, "$" + (NameOf(source) + rest)) && !StartsName(rest)
    requires i + 1 <= |src| && ArgsOf(src, i + 1) == BadArgs(error)
    ensures ExpandFrom(statics, req, src, i) == Failed(error)
  {
    SourceNames(source);
    NameToken(src, i, NameOf(source), rest);
    FunctionToken(statics, src, i, source);
  }

  /** A function without parentheses is an error. */
  lemma {:induction false} NoParentheses(statics: set<string>, req: Request, src: string, i: nat, source: Source, rest: string)
    requires Ends(src, i, "$" + (NameOf(source) + rest)) && !StartsName(rest) && '(' !in rest
    ensures ExpandFrom(statics, req, src, i) == Failed(UnterminatedParenthesis)
  {
    SourceNames(source);
    NameToken(src, i, NameOf(source), rest);
    NoParenInName(source);
    var name := NameOf(source);
    assert forall k :: 0 <= k < |name + rest| ==> (name + rest)[k] == src[i + 1 + k];
    forall k | i + 1 <= k < |src|
      ensures src[k] != '('
    {
      assert (name + rest)[k - i - 1] == src[k];
    }
    NeverOpened(src, i + 1);
    FunctionFails(statics, req, src, i, source, rest, UnterminatedParenthesis);
  }

  /** So is one whose list is not closed, */
  lemma {:induction false} ListNotClosed(statics: set<string>, req: Request, src: string, i: nat, source: Source, text: string)
    requires Ends(src, i, "$" + (NameOf(source) + ("(" + text))) && forall k :: 0 <= k < |text| ==> BareChar(text[k])
    ensures ExpandFrom(statics, req, src, i) == Failed(UnterminatedParenthesis)
  {
    ArgsStart(src, i, source, text);
    var j := i + 2 + |NameOf(source)|;
    assert text + "" == text;
    BareRead(src, j, text, "", "", []);
    FunctionFails(statics, req, src, i, source, "(" + text, UnterminatedParenthesis);
  }

  /** or one of whose quotes is not. */
  lemma {:induction false} QuoteNotClosed(statics: set<string>, req: Request, src: string, i: nat, source: Source, text: string)
    requires Ends(src, i, "$" + (NameOf(source) + ("(" + (['\"'] + text)))) && '\"' !in text
    ensures ExpandFrom(statics, req, src, i) == Failed(UnterminatedQuotes)
  {
    ArgsStart(src, i, source, ['\"'] + text);
    var j := i + 2 + |NameOf(source)|;
    EndsFirst(src, j, '\"', text);
    forall k | j + 1 <= k < |src|
      ensures src[k] != '\"'
    {
      assert text[k - j - 1] == src[k];
    }
    QuoteNeverClosed(src, j + 1, "", []);
    FunctionFails(statics, req, src, i, source, "(" + (['\"'] + text), UnterminatedQuotes);
  }

  lemma {:induction false} NoParenInName(source: Source)
    ensures '(' !in NameOf(source)
  {}

  lemma {:induction false} QuoteNeverClosed(src: string, i: nat, arg: string, args: seq<string>)
    requires i <= |src| && forall k :: i <= k < |src| ==> src[k] != '\"'
    ensures ArgsFrom(src, i, Some('\"'), arg, args) == BadArgs(UnterminatedQuotes)
    decreases |src| - i
  {
    if i < |src| {
      QuoteNeverClosed(src, i + 1, arg + [src[i]], args);
    }
  }
}

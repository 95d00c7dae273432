/** Template expansion: `$name` and `$name(args)` are replaced by values taken from the
    request and the response. */
module TemplateVars {
  import opened Common
  import RuleParser

  datatype Error =
    | UnterminatedEnvVar | UnterminatedParenthesis | UnterminatedQuotes
    | UnexpectedVar(name: string) | ExpectArgs | InvalidIndex | TooManyArgs | BadForm

  /** The function-like variables look a key up in one of these. */
  datatype Source = Header | ResponseHeader | Query | Form | PostForm

  /** A request together with its response. Parsing the form may fail. */
  datatype Request = Request(statically: string -> string, values: Source -> map<string, seq<string>>, formError: bool)

  /** Panicked is an index into a list that is out of its bounds. */
  datatype Result = Expanded(text: string) | Failed(error: Error) | Panicked

  predicate IsNameChar(c: char) {
    'a' <= c <= 'z' || 'A' <= c <= 'Z' || c == '_'
  }

  predicate IsBlank(c: char) {
    c == ' ' || c == '\t' || c == '\n' || c == '\r'
  }

  function SourceOf(name: string): Option<Source> {
    if name == "header" then Some(Header)
    else if name == "resp_header" then Some(ResponseHeader)
    else if name == "arg" then Some(Query)
    else if name == "form" then Some(Form)
    else if name == "postform" then Some(PostForm)
    else None
  }

  // ---------------------------------------------------------------- numbers

  predicate IsDigit(c: char) {
    '0' <= c <= '9'
  }

  predicate AllDigits(s: string) {
    forall i :: 0 <= i < |s| ==> IsDigit(s[i])
  }

  function Digits(s: string): int
    requires AllDigits(s)
  {
    if s == "" then 0 else 10 * Digits(s[..|s| - 1]) + (s[|s| - 1] as int - '0' as int)
  }

  /** A decimal number with an optional sign that fits 64 bits. */
  function Atoi(s: string): Option<int> {
    var signed := s != "" && (s[0] == '-' || s[0] == '+');
    var digits := if signed then s[1..] else s;
    if digits == "" || !AllDigits(digits) then None
    else
      var n := if s[0] == '-' then -Digits(digits) else Digits(digits);
      if -0x8000_0000_0000_0000 <= n < 0x8000_0000_0000_0000 then Some(n) else None
  }

  // ---------------------------------------------------------------- reading a template

  /** The name that starts at `j`. */
  function NameEnd(src: string, j: nat): (k: nat)
    requires j <= |src|
    ensures j <= k <= |src|
    ensures j < |src| && IsNameChar(src[j]) ==> j < k
    decreases |src| - j
  {
    if j < |src| && IsNameChar(src[j]) then NameEnd(src, j + 1) else j
  }

  function IndexOf(src: string, c: char, i: nat): (p: nat)
    requires i <= |src|
    ensures i <= p <= |src| && (p < |src| ==> src[p] == c)
    decreases |src| - i
  {
    if i < |src| && src[i] != c then IndexOf(src, c, i + 1) else i
  }

  datatype Args = Args(args: seq<string>, end: nat) | BadArgs(error: Error)

  /** The arguments up to the closing parenthesis. `quote` is the open quote, if any. */
  function ArgsFrom(src: string, i: nat, quote: Option<char>, arg: string, args: seq<string>): (r: Args)
    requires i <= |src|
    ensures r.Args? ==> i <= r.end < |src|
    decreases |src| - i
  {
    if i == |src| then BadArgs(if quote.Some? then UnterminatedQuotes else UnterminatedParenthesis)
    else
      var c := src[i];
      if quote.Some? then
        if c == quote.value then ArgsFrom(src, i + 1, None, "", args + [arg])
        else ArgsFrom(src, i + 1, quote, arg + [c], args)
      else if RuleParser.IsQuote(c) then ArgsFrom(src, i + 1, Some(c), arg, args)
      else if c == ')' then Args(args + OrNothing(arg), i)
      else if c == ',' then ArgsFrom(src, i + 1, None, "", args + OrNothing(arg))
      else if IsBlank(c) then ArgsFrom(src, i + 1, None, arg, args)
      else ArgsFrom(src, i + 1, None, arg + [c], args)
  }

  /** The first opening parenthesis anywhere after the name starts the arguments. */
  function ArgsOf(src: string, j: nat): (r: Args)
    requires j <= |src|
    ensures r.Args? ==> j <= r.end < |src|
  {
    var open := IndexOf(src, '(', j);
    if open == |src| then BadArgs(UnterminatedParenthesis) else ArgsFrom(src, open + 1, None, "", [])
  }

  method ExtractArgs(src: string, j: nat) returns (r: Args)
    requires j <= |src|
    ensures r == ArgsOf(src, j)
  {
    var open := j;
    while open < |src| && src[open] != '('
      invariant j <= open <= |src| && IndexOf(src, '(', open) == IndexOf(src, '(', j)
    {
      open := open + 1;
    }
    if open == |src| {
      return BadArgs(UnterminatedParenthesis);
    }
    var quote: Option<char>, arg, args := None, "", [];
    var i := open + 1;
    while i < |src|
      invariant open < i <= |src|
      invariant ArgsFrom(src, i, quote, arg, args) == ArgsOf(src, j)
    {
      var c := src[i];
      if quote.Some? {
        if c == quote.value {
          args := args + [arg];
          arg, quote := "", None;
        } else {
          arg := arg + [c];
        }
        i := i + 1;
        continue;
      }
      if RuleParser.IsQuote(c) {
        quote := Some(c);
        i := i + 1;
        continue;
      }
      if c == ')' {
        return Args(args + OrNothing(arg), i);
      }
      if c == ',' {
        args := args + OrNothing(arg);
        arg := "";
      } else if !IsBlank(c) {
        arg := arg + [c];
      }
      i := i + 1;
    }
    return BadArgs(if quote.Some? then UnterminatedQuotes else UnterminatedParenthesis);
  }

  /** What stands at one position of a template; `next` is where reading goes on. */
  datatype Token =
    | Literal(text: string, next: nat)
    | Static(name: string, next: nat)
    | Dynamic(source: Source, args: seq<string>, next: nat)
    | Bad(error: Error)

  /** Reading a token does not look at the request. */
  function TokenAt(statics: set<string>, src: string, i: nat): (t: Token)
    requires i < |src|
    ensures !t.Bad? ==> i < t.next <= |src|
  {
    if src[i] != '$' then Literal([src[i]], i + 1)
    else if i + 1 == |src| then Bad(UnterminatedEnvVar)
    else if src[i + 1] == '$' then Literal("$", i + 2)
    else if src[i + 1] == '{' then Literal("${", i + 2)
    else if !IsNameChar(src[i + 1]) then Bad(UnterminatedEnvVar)
    else
      var k := NameEnd(src, i + 1);
      var name := src[i + 1..k];
      var source := SourceOf(name);
      if source.Some? then
        var a := ArgsOf(src, i + 1);
        if a.BadArgs? then Bad(a.error) else Dynamic(source.value, a.args, a.end + 1)
      else if name in statics then Static(name, k)
      else Bad(UnexpectedVar(name))
  }

  // ---------------------------------------------------------------- values

  datatype KeyIndex = KeyIndex(key: string, index: int) | BadKey(error: Error)

  function KeyAndIndex(args: seq<string>): KeyIndex {
    if |args| == 0 then BadKey(ExpectArgs)
    else if |args| == 1 then KeyIndex(args[0], 0)
    else if |args| == 2 then
      var n := Atoi(args[1]);
      if n.None? then BadKey(InvalidIndex) else KeyIndex(args[0], n.value)
    else BadKey(TooManyArgs)
  }

  function StripFragment(s: string): string {
    s[..IndexOf(s, '#', 0)]
  }

  /** Unknown keys and indices past the end give nothing; a negative index crashes. */
  function ValueAt(values: map<string, seq<string>>, key: string, index: int): Result {
    if key in values && index < |values[key]| then
      if index < 0 then Panicked else Expanded(StripFragment(values[key][index]))
    else Expanded("")
  }

  function Lookup(req: Request, source: Source, args: seq<string>): Result {
    var k := KeyAndIndex(args);
    if k.BadKey? then Failed(k.error)
    else if (source.Form? || source.PostForm?) && req.formError then Failed(BadForm)
    else ValueAt(req.values(source), k.key, k.index)
  }

  function Evaluate(req: Request, t: Token): Result {
    match t
    case Literal(text, _) => Expanded(text)
    case Static(name, _) => Expanded(req.statically(name))
    case Dynamic(source, args, _) => Lookup(req, source, args)
    case Bad(error) => Failed(error)
  }

  /** The expansion of a template from position `i` on. */
  function ExpandFrom(statics: set<string>, req: Request, src: string, i: nat): Result
    requires i <= |src|
    decreases |src| - i
  {
    if i == |src| then Expanded("")
    else
      var t := TokenAt(statics, src, i);
      var v := Evaluate(req, t);
      if !v.Expanded? || t.Bad? then v
      else
        var rest := ExpandFrom(statics, req, src, t.next);
        if rest.Expanded? then Expanded(v.text + rest.text) else rest
  }

  function Expand(statics: set<string>, req: Request, src: string): Result {
    ExpandFrom(statics, req, src, 0)
  }

  /** Looks ahead from a position and decides what stands there. */
  method ReadToken(statics: set<string>, src: string, i: nat) returns (t: Token)
    requires i < |src|
    ensures t == TokenAt(statics, src, i)
  {
    if src[i] != '$' {
      return Literal([src[i]], i + 1);
    }
    if i + 1 >= |src| {
      return Bad(UnterminatedEnvVar);
    }
    var j := i + 1;
    match src[j] {
      case '$' => return Literal("$", j + 1);
      case '{' => return Literal("${", j + 1);
      case _ =>
    }
    if !IsNameChar(src[j]) {
      return Bad(UnterminatedEnvVar);
    }
    var k := j;
    while k < |src| && IsNameChar(src[k])
      invariant j <= k <= |src| && NameEnd(src, k) == NameEnd(src, j)
    {
      k := k + 1;
    }
    var name := src[j..k];
    var source := SourceOf(name);
    if source.Some? {
      var a := ExtractArgs(src, j);
      if a.BadArgs? {
        return Bad(a.error);
      }
      return Dynamic(source.value, a.args, a.end + 1);
    }
    return if name in statics then Static(name, k) else Bad(UnexpectedVar(name));
  }

  method ExpandVars(statics: set<string>, req: Request, src: string) returns (r: Result)
    ensures r == Expand(statics, req, src)
  {
    var dst := "";
    var i := 0;
    while i < |src|
      invariant i <= |src|
      invariant Expand(statics, req, src) == Prefixed(dst, ExpandFrom(statics, req, src, i))
    {
      var t := ReadToken(statics, src, i);
      var v := Evaluate(req, t);
      if !v.Expanded? {
        return v;
      }
      PrefixedTwice(dst, v.text, ExpandFrom(statics, req, src, t.next));
      dst := dst + v.text;
      i := t.next;
    }
    return Expanded(dst);
  }

  function Prefixed(text: string, r: Result): Result {
    if r.Expanded? then Expanded(text + r.text) else r
  }

  lemma {:induction false} PrefixedTwice(a: string, b: string, r: Result)
    ensures Prefixed(a, Prefixed(b, r)) == Prefixed(a + b, r)
  {
    if r.Expanded? {
      assert a + (b + r.text) == (a + b) + r.text;
    }
  }

  // ---------------------------------------------------------------- validation

  /** Validation expands the template on an empty request. */
  function DummyRequest(statically: string -> string): Request {
    Request(statically, _ => map[], false)
  }

  function Validate(statics: set<string>, statically: string -> string, src: string): Result {
    Expand(statics, DummyRequest(statically), src)
  }

  predicate NegativeIndex(t: Token) {
    t.Dynamic? && KeyAndIndex(t.args).KeyIndex? && KeyAndIndex(t.args).index < 0
  }

  /** Whether the token fails whatever the request is (form parsing aside). */
  predicate FailsAlways(t: Token) {
    t.Bad? || (t.Dynamic? && KeyAndIndex(t.args).BadKey?)
  }

  /** No token that expansion reaches has a negative index. */
  predicate NonNegativeFrom(statics: set<string>, src: string, i: nat)
    requires i <= |src|
    decreases |src| - i
  {
    i == |src| ||
    var t := TokenAt(statics, src, i);
    FailsAlways(t) || (!NegativeIndex(t) && NonNegativeFrom(statics, src, t.next))
  }

  /** The error of a template, as a function of the template alone. */
  function ErrorFrom(statics: set<string>, src: string, i: nat): Option<Error>
    requires i <= |src|
    decreases |src| - i
  {
    if i == |src| then None
    else
      var t := TokenAt(statics, src, i);
      if t.Bad? then Some(t.error)
      else if FailsAlways(t) then Some(KeyAndIndex(t.args).error)
      else ErrorFrom(statics, src, t.next)
  }

  /** Whether and how expansion fails depends on the template only. */
  lemma {:induction false} FailureIsStatic(statics: set<string>, req: Request, src: string, i: nat)
    requires i <= |src| && NonNegativeFrom(statics, src, i) && !req.formError
    ensures var r := ExpandFrom(statics, req, src, i);
            match ErrorFrom(statics, src, i)
            case None => r.Expanded?
            case Some(e) => r == Failed(e)
    decreases |src| - i
  {
    if i < |src| {
      var t := TokenAt(statics, src, i);
      if !FailsAlways(t) {
        FailureIsStatic(statics, req, src, t.next);
      }
    }
  }

  /** Every two requests agree on whether a template expands, and on the error. */
  lemma {:induction false} RequestsAgree(statics: set<string>, r1: Request, r2: Request, src: string)
    requires NonNegativeFrom(statics, src, 0) && !r1.formError && !r2.formError
    ensures Expand(statics, r1, src).Expanded? <==> Expand(statics, r2, src).Expanded?
    ensures Expand(statics, r1, src).Failed? ==> Expand(statics, r1, src) == Expand(statics, r2, src)
  {
    FailureIsStatic(statics, r1, src, 0);
    FailureIsStatic(statics, r2, src, 0);
  }

  /** The dummy request has no values, so validation never notices a negative index. */
  lemma {:induction false} ValidationIsBlind(statics: set<string>, statically: string -> string, src: string, i: nat)
    requires i <= |src|
    ensures var r := ExpandFrom(statics, DummyRequest(statically), src, i);
            match ErrorFrom(statics, src, i)
            case None => r.Expanded?
            case Some(e) => r == Failed(e)
    decreases |src| - i
  {
    if i < |src| {
      var t := TokenAt(statics, src, i);
      if !FailsAlways(t) {
        ValidationIsBlind(statics, statically, src, t.next);
      }
    }
  }

  /** A request that has exactly one key, everywhere. */
  function WithKey(key: string): Request {
    Request(_ => "", _ => map[key := [""]], false)
  }

  /** A negative index that is reached crashes on the request that has its key. */
  lemma {:induction false} NegativeIndexCrashes(statics: set<string>, src: string, i: nat) returns (req: Request)
    requires i <= |src| && !NonNegativeFrom(statics, src, i) && ErrorFrom(statics, src, i).None?
    ensures !req.formError && ExpandFrom(statics, req, src, i).Panicked?
    ensures exists key :: req == WithKey(key)
    decreases |src| - i
  {
    var t := TokenAt(statics, src, i);
    if NegativeIndex(t) {
      req := WithKey(KeyAndIndex(t.args).key);
    } else {
      req := NegativeIndexCrashes(statics, src, t.next);
    }
  }

  /** Validation is sound exactly for templates without a negative index: an accepted
      template expands on every request (form errors aside) if and only if it has none. */
  lemma {:induction false} ValidationIsSound(statics: set<string>, statically: string -> string, src: string)
    requires Validate(statics, statically, src).Expanded?
    ensures NonNegativeFrom(statics, src, 0) <==>
              forall req: Request :: !req.formError ==> Expand(statics, req, src).Expanded?
  {
    ValidationIsBlind(statics, statically, src, 0);
    if NonNegativeFrom(statics, src, 0) {
      forall req: Request | !req.formError
        ensures Expand(statics, req, src).Expanded?
      {
        FailureIsStatic(statics, req, src, 0);
      }
    } else {
      var req := NegativeIndexCrashes(statics, src, 0);
      assert !Expand(statics, req, src).Expanded?;
    }
  }

  /** A rejected template fails with the same error on every request. */
  lemma {:induction false} RejectionIsFinal(statics: set<string>, statically: string -> string, req: Request, src: string)
    requires Validate(statics, statically, src).Failed? && NonNegativeFrom(statics, src, 0) && !req.formError
    ensures Expand(statics, req, src) == Validate(statics, statically, src)
  {
    ValidationIsBlind(statics, statically, src, 0);
    FailureIsStatic(statics, req, src, 0);
  }

  // ---------------------------------------------------------------- literal text

  function DoubleDollars(text: string): string {
    if text == "" then ""
    else (if text[0] == '$' then "$$" else [text[0]]) + DoubleDollars(text[1..])
  }

  lemma {:induction false} DoubledFrom(statics: set<string>, req: Request, src: string, i: nat, text: string)
    requires i <= |src| && src[i..] == DoubleDollars(text)
    ensures ExpandFrom(statics, req, src, i) == Expanded(text)
    decreases |text|
  {
    if text == "" {
      assert i == |src|;
    } else {
      var n := if text[0] == '$' then 2 else 1;
      var rest := DoubleDollars(text[1..]);
      assert src[i..][n..] == rest && src[i + n..] == src[i..][n..];
      assert src[i] == src[i..][0] && (n == 2 ==> src[i + 1] == src[i..][1]);
      DoubledFrom(statics, req, src, i + n, text[1..]);
      assert [text[0]] + text[1..] == text;
    }
  }

  /** Every text can be written as a template, and expands to itself on every request. */
  lemma {:induction false} DoubledTextExpandsToItself(statics: set<string>, req: Request, text: string)
    ensures Expand(statics, req, DoubleDollars(text)) == Expanded(text)
  {
    var src := DoubleDollars(text);
    assert src[0..] == src;
    DoubledFrom(statics, req, src, 0, text);
  }
}

/**
 * Parsing of flow expressions (checkers/util/FlowExpressionParseUtil.java):
 * the strings written in pre- and postcondition annotations, such as
 * "#1", "this.f", "get(#2, \"k\")" or "a.b.c", are turned into receivers.
 *
 * Name resolution (fields, classes, methods and the superclass of the
 * receiver's type) is done by javac in the original; here it is an
 * environment of lookup functions passed in.
 */
module FlowExpressionParse {
  import opened Wrappers
  import opened FlowExpressions
  import opened JavaStrings

  /** A parse either yields a value or fails with a message key and its argument. */
  datatype Parsed<T> = Parsed(value: T) | ParseError(key: string, argument: string)
  {
    predicate IsFailure() { ParseError? }

    function PropagateFailure<U>(): Parsed<U>
      requires ParseError?
    {
      ParseError(key, argument)
    }

    function Extract(): T
      requires Parsed?
    {
      value
    }
  }

  const ParseErrorKey := "flowexpr.parse.error"
  const IndexTooBigKey := "flowexpr.parse.index.too.big"
  const NotDeterministicKey := "flowexpr.method.not.deterministic"

  /** A method found by name resolution. */
  datatype Method = Method(name: string, isStatic: bool, isDeterministic: bool, declaringClass: string)

  /**
   * Name resolution.  findField and findMethod search the receiver's type
   * and its enclosing types; fieldClass is the class declaring a field;
   * findClass resolves a class name; hasSuperclass says whether the
   * receiver's type has a direct class (not interface) supertype.
   */
  datatype Env = Env(
    findField: (Receiver, string) -> Option<Field>,
    fieldClass: Field -> string,
    findClass: string -> Option<string>,
    hasSuperclass: Receiver -> bool,
    findMethod: (Receiver, string, seq<Receiver>) -> Option<Method>)

  /** FlowExpressionContext: the current receiver, the outermost receiver and the method arguments. */
  datatype Context = Context(receiver: Receiver, outerReceiver: Receiver, arguments: seq<Receiver>)

  /** The two-argument constructor: the receiver is also the outer receiver. */
  function NewContext(receiver: Receiver, arguments: seq<Receiver>): (c: Context)
    ensures c.receiver == receiver && c.outerReceiver == receiver && c.arguments == arguments
  {
    Context(receiver, receiver, arguments)
  }

  /** changeReceiver: a new receiver; the outer receiver and the arguments stay. */
  function ChangeReceiver(c: Context, receiver: Receiver): (r: Context)
    ensures r.receiver == receiver
    ensures r.outerReceiver == c.outerReceiver && r.arguments == c.arguments
  {
    c.(receiver := receiver)
  }

  /** useOuterReceiver: both receivers become the outer one; the arguments stay. */
  function UseOuterReceiver(c: Context): (r: Context)
    ensures r.receiver == c.outerReceiver && r.outerReceiver == c.outerReceiver
    ensures r.arguments == c.arguments
  {
    c.(receiver := c.outerReceiver)
  }

  /**
   * Changing the receiver never affects the context in which method
   * arguments are parsed: they always see the outer receiver.
   */
  lemma UseOuterIgnoresChange(c: Context, receiver: Receiver)
    ensures UseOuterReceiver(ChangeReceiver(c, receiver)) == UseOuterReceiver(c)
    ensures UseOuterReceiver(UseOuterReceiver(c)) == UseOuterReceiver(c)
    ensures ChangeReceiver(NewContext(receiver, c.arguments), c.receiver).outerReceiver == receiver
  {
  }

  /** Which expression forms one call of parse accepts. */
  datatype Flags = Flags(allowSelf: bool, allowIdentifier: bool, allowParameter: bool,
                         allowDot: bool, allowMethods: bool, allowLiterals: bool)

  /** The public entry point accepts every form. */
  const AllForms := Flags(true, true, true, true, true, true)

  /** The part after a dot: no self reference, no parameter, no literal. */
  const MemberForms := Flags(false, true, false, true, true, false)

  // ---------------------------------------------------------------------
  // Character classes and patterns
  // ---------------------------------------------------------------------

  predicate IsDigit(c: char) { '0' <= c <= '9' }

  predicate IsNonzeroDigit(c: char) { '1' <= c <= '9' }

  predicate IsDigits(d: string)
  {
    forall i :: 0 <= i < |d| ==> IsDigit(d[i])
  }

  /** [a-zA-Z_$] */
  predicate IsIdentifierStart(c: char)
  {
    ('a' <= c <= 'z') || ('A' <= c <= 'Z') || c == '_' || c == '$'
  }

  /** [a-zA-Z_$0-9] */
  predicate IsIdentifierPart(c: char)
  {
    IsIdentifierStart(c) || IsDigit(c)
  }

  /** The characters that `.` in a regular expression does not match. */
  predicate IsLineTerminator(c: char)
  {
    c == '\n' || c == '\r' || c == '\U{0085}' || c == '\U{2028}' || c == '\U{2029}'
  }

  predicate NoLineTerminators(t: string)
  {
    forall i :: 0 <= i < |t| ==> !IsLineTerminator(t[i])
  }

  /** identifierPattern */
  predicate IsIdentifier(s: string)
  {
    |s| >= 1 && IsIdentifierStart(s[0]) && forall i :: 1 <= i < |s| ==> IsIdentifierPart(s[i])
  }

  /** intPattern: a nonzero digit followed by digits. */
  predicate IsIntLiteral(s: string)
  {
    |s| >= 1 && IsNonzeroDigit(s[0]) && forall i :: 1 <= i < |s| ==> IsDigit(s[i])
  }

  /** longPattern: an int literal followed by L. */
  predicate IsLongLiteral(s: string)
  {
    |s| >= 2 && s[|s| - 1] == 'L' && IsIntLiteral(s[..|s| - 1])
  }

  /** parameterPattern: # followed by a number without leading zero. */
  predicate IsParameter(s: string)
  {
    |s| >= 2 && s[0] == '#' && IsIntLiteral(s[1..])
  }

  /** The body of stringPattern: characters other than quote and backslash, or a backslash escape. */
  predicate IsStringBody(b: string)
    decreases |b|
  {
    if b == [] then true
    else if b[0] == '\\' then |b| >= 2 && !IsLineTerminator(b[1]) && IsStringBody(b[2..])
    else b[0] != '"' && IsStringBody(b[1..])
  }

  /** stringPattern */
  predicate IsStringLiteral(s: string)
  {
    |s| >= 2 && s[0] == '"' && s[|s| - 1] == '"' && IsStringBody(s[1..|s| - 1])
  }

  /**
   * methodPattern: an identifier, "(", anything but line terminators, ")".
   * Identifiers contain no "(", so the name ends at the first "(".
   */
  predicate IsMethodCall(s: string)
  {
    var k := IndexOf(s, '(');
    k + 2 <= |s| && IsIdentifier(s[..k]) && s[|s| - 1] == ')' && NoLineTerminators(s[k + 1..|s| - 1])
  }

  /**
   * dotPattern: a non-empty run without ".", a ".", and a non-empty rest
   * without line terminators.  The run stops at the first ".".
   */
  predicate IsDotted(s: string)
  {
    var k := IndexOf(s, '.');
    1 <= k && k + 1 < |s| && NoLineTerminators(s[k + 1..])
  }

  /** The value of a decimal digit string. */
  function DigitsValue(d: string): nat
    decreases |d|
  {
    if d == [] then 0
    else 10 * DigitsValue(d[..|d| - 1]) + (d[|d| - 1] as int - '0' as int) % 10
  }

  /** A number without leading zero is at least 1. */
  lemma {:induction false} IntLiteralPositive(d: string)
    requires IsIntLiteral(d)
    ensures DigitsValue(d) >= 1
    decreases |d|
  {
    if |d| > 1 {
      var p := d[..|d| - 1];
      assert p[1..] == d[1..|d| - 1];
      assert IsIntLiteral(p);
      IntLiteralPositive(p);
    }
  }

  // ---------------------------------------------------------------------
  // parse
  // ---------------------------------------------------------------------

  /**
   * The identifier form: a field of the receiver's type (or of an enclosing
   * type), accessed through the class for a static field; otherwise a class
   * name; otherwise a parse error.
   */
  function ResolveIdentifier(s: string, c: Context, env: Env): (r: Parsed<Receiver>)
    ensures r.Parsed? ==> r.value.FieldAccess? || r.value.ClassName?
    ensures r.Parsed? && r.value.ClassName? ==> env.findField(c.receiver, s).None? || r.value.element == env.fieldClass(env.findField(c.receiver, s).value)
    ensures r.ParseError? <==> env.findField(c.receiver, s).None? && env.findClass(s).None?
  {
    match env.findField(c.receiver, s)
    case Some(f) =>
      if f.isStatic then Parsed(FieldAccess(ClassName(env.fieldClass(f)), f))
      else Parsed(FieldAccess(c.receiver, f))
    case None =>
      match env.findClass(s)
      case Some(k) => Parsed(ClassName(k))
      case None => ParseError(ParseErrorKey, s)
  }

  /**
   * The method form after its arguments are parsed: a deterministic method
   * found by resolution, called on its class when static and on the
   * current receiver otherwise.
   */
  function ResolveMethod(s: string, name: string, parameters: seq<Receiver>, c: Context, env: Env): (r: Parsed<Receiver>)
    ensures r.Parsed? ==> r.value.PureMethodCall? && r.value.parameters == parameters
    ensures r.Parsed? <==> env.findMethod(c.receiver, name, parameters).Some? && env.findMethod(c.receiver, name, parameters).value.isDeterministic
    ensures r.ParseError? && env.findMethod(c.receiver, name, parameters).Some? ==> r.key == NotDeterministicKey
  {
    match env.findMethod(c.receiver, name, parameters)
    case None => ParseError(ParseErrorKey, s)
    case Some(m) =>
      if !m.isDeterministic then ParseError(NotDeterministicKey, m.name)
      else if m.isStatic then Parsed(PureMethodCall(m.name, ClassName(m.declaringClass), parameters))
      else Parsed(PureMethodCall(m.name, c.receiver, parameters))
  }

  /** The expression forms parse distinguishes, in the order it tries them. */
  datatype Form =
    | IntForm | NullForm | LongForm | StringForm | SelfForm | SuperForm
    | IdentifierForm | ParameterForm | MethodForm | DotForm | NoForm

  /** The first form, in parse's order, that s matches and fl allows. */
  function FormOf(s: string, fl: Flags): (f: Form)
    ensures f == ParameterForm ==> IsParameter(s)
    ensures f == MethodForm ==> IsMethodCall(s)
    ensures f == DotForm ==> IsDotted(s)
  {
    if IsIntLiteral(s) && fl.allowLiterals then IntForm
    else if s == "null" && fl.allowLiterals then NullForm
    else if IsLongLiteral(s) && fl.allowLiterals then LongForm
    else if IsStringLiteral(s) && fl.allowLiterals then StringForm
    else if s == "this" && fl.allowSelf then SelfForm
    else if s == "super" && fl.allowSelf then SuperForm
    else if IsIdentifier(s) && fl.allowIdentifier then IdentifierForm
    else if IsParameter(s) && fl.allowParameter then ParameterForm
    else if IsMethodCall(s) && fl.allowMethods then MethodForm
    else if IsDotted(s) && fl.allowDot then DotForm
    else NoForm
  }

  /**
   * parse: trim, then try the forms in this order: int, null, long and
   * string literals; this and super; an identifier; a parameter #n; a
   * method call; a dotted expression.  Literal values keep their text,
   * which determines both their type and their value.
   */
  function Parse(s0: string, c: Context, env: Env, fl: Flags): (r: Parsed<Receiver>)
    ensures FormOf(Trim(s0), fl) == NoForm ==> r == ParseError(ParseErrorKey, Trim(s0))
    decreases |s0|, 3
  {
    ParseTrimmed(Trim(s0), c, env, fl)
  }

  /** parse after the trim: dispatch on the first form that matches. */
  function ParseTrimmed(s: string, c: Context, env: Env, fl: Flags): (r: Parsed<Receiver>)
    ensures FormOf(s, fl) == NoForm ==> r == ParseError(ParseErrorKey, s)
    decreases |s|, 2
  {
    match FormOf(s, fl)
    case IntForm => Parsed(ValueLiteral(s))
    case NullForm => Parsed(ValueLiteral(s))
    case LongForm => Parsed(ValueLiteral(s))
    case StringForm => Parsed(ValueLiteral(s))
    case SelfForm => Parsed(ThisReference)
    case SuperForm =>
      if env.hasSuperclass(c.receiver) then Parsed(ThisReference) else ParseError(ParseErrorKey, s)
    case IdentifierForm => ResolveIdentifier(s, c, env)
    case ParameterForm => ParseParameter(s, c)
    case MethodForm => ParseCall(s, c, env)
    case DotForm => ParseDotted(s, c, env)
    case NoForm => ParseError(ParseErrorKey, s)
  }

  /** The parameter form #n: the n-th argument, counting from 1, or an index-too-big error. */
  function ParseParameter(s: string, c: Context): (r: Parsed<Receiver>)
    requires IsParameter(s)
    ensures r.Parsed? <==> DigitsValue(s[1..]) <= |c.arguments|
    ensures r.Parsed? ==> DigitsValue(s[1..]) >= 1 && r.value == c.arguments[DigitsValue(s[1..]) - 1]
    ensures r.ParseError? ==> r == ParseError(IndexTooBigKey, s[1..])
  {
    var idx := DigitsValue(s[1..]);
    if idx > |c.arguments| then ParseError(IndexTooBigKey, s[1..])
    else
      IntLiteralPositive(s[1..]);
      Parsed(c.arguments[idx - 1])
  }

  /**
   * The method form: the arguments between the parentheses are parsed as
   * a parameter list against the outer receiver, then the method is
   * resolved by its name and the argument receivers.
   */
  function ParseCall(s: string, c: Context, env: Env): (r: Parsed<Receiver>)
    requires IsMethodCall(s)
    ensures var k := IndexOf(s, '(');
      r.Parsed? ==>
        r.value.PureMethodCall? &&
        ParameterList(s[k + 1..|s| - 1], true, UseOuterReceiver(c), env) == Parsed(r.value.parameters)
    decreases |s|, 1
  {
    var k := IndexOf(s, '(');
    var parameters :- ParameterList(s[k + 1..|s| - 1], true, UseOuterReceiver(c), env);
    ResolveMethod(s, s[..k], parameters, c, env)
  }

  /**
   * The dotted form: the part before the first "." is parsed with every
   * form allowed, the rest with MemberForms against that receiver.
   */
  function ParseDotted(s: string, c: Context, env: Env): (r: Parsed<Receiver>)
    requires IsDotted(s)
    ensures var head := Parse(s[..IndexOf(s, '.')], c, env, AllForms);
      r.Parsed? ==> head.Parsed?
    ensures var head := Parse(s[..IndexOf(s, '.')], c, env, AllForms);
      head.ParseError? ==> r == head
    decreases |s|, 1
  {
    var k := IndexOf(s, '.');
    var head := Parse(s[..k], c, env, AllForms);
    if head.ParseError? then ParseError(head.key, head.argument)
    else Parse(s[k + 1..], ChangeReceiver(c, head.value), env, MemberForms)
  }

  /** A string that is already trimmed goes straight to the dispatch on its form. */
  lemma ParseOfTrimmed(s: string, c: Context, env: Env, fl: Flags)
    requires IsTrimmed(s)
    ensures Parse(s, c, env, fl) == ParseTrimmed(s, c, env, fl)
  {
    TrimmedUnchanged(s);
  }

  /**
   * A string starting with neither a letter, a digit, "_", "$" nor a quote
   * is no literal, no name and no method call.
   */
  lemma NoWordStart(s: string)
    requires s != [] && !IsIdentifierStart(s[0]) && !IsDigit(s[0]) && s[0] != '"'
    ensures !IsIntLiteral(s) && !IsLongLiteral(s) && !IsStringLiteral(s)
    ensures !IsIdentifier(s) && !IsMethodCall(s)
    ensures s != "null" && s != "this" && s != "super"
  {
    if |s| >= 2 {
      assert s[..|s| - 1][0] == s[0];
    }
    var k := IndexOf(s, '(');
    if 0 < k {
      assert s[..k][0] == s[0];
    }
  }

  // ---------------------------------------------------------------------
  // Parameter lists
  // ---------------------------------------------------------------------

  /** Where the scan of a parameter list stops. */
  datatype Stop = Comma(at: nat) | End | Unbalanced

  /**
   * The scan of parseParameterList from position i, at call depth level,
   * inside or outside a string literal: it stops at the first comma at
   * depth 0 outside a string, at a ")" at depth 0 outside a string (an
   * error), or at the end (an error inside a string or at depth > 0).
   */
  function Scan(ps: string, i: nat, level: nat, inString: bool): (r: Stop)
    requires i <= |ps|
    ensures r.Comma? ==> i <= r.at < |ps| && ps[r.at] == ','
    decreases |ps| - i
  {
    if i == |ps| then (if inString || level > 0 then Unbalanced else End)
    else
      var next := ps[i];
      if next == ',' && !inString && level == 0 then Comma(i)
      else if next == '"' then Scan(ps, i + 1, level, !inString)
      else if next == '(' && !inString then Scan(ps, i + 1, level + 1, inString)
      else if next == ')' && !inString then
        (if level == 0 then Unbalanced else Scan(ps, i + 1, level - 1, inString))
      else Scan(ps, i + 1, level, inString)
  }

  /** finishParam: the segment before position idx; an empty one is allowed only when allowEmpty. */
  function FinishParam(ps: string, allowEmpty: bool, c: Context, env: Env, idx: nat): (r: Parsed<seq<Receiver>>)
    requires idx <= |ps|
    ensures r.Parsed? ==> |r.value| == (if idx == 0 then 0 else 1)
    decreases |ps|, 4
  {
    if idx == 0 then
      (if allowEmpty then Parsed([]) else ParseError(ParseErrorKey, ps))
    else
      var p :- Parse(ps[..idx], c, env, AllForms);
      Parsed([p])
  }

  /**
   * parseParameterList: the first parameter up to the first top-level
   * comma, then the rest parsed as a list in which an empty first segment
   * is an error.
   */
  function ParameterList(ps: string, allowEmpty: bool, c: Context, env: Env): (r: Parsed<seq<Receiver>>)
    ensures r.Parsed? && r.value == [] ==> ps == [] && allowEmpty
    decreases |ps|, 5
  {
    match Scan(ps, 0, 0, false)
    case Unbalanced => ParseError(ParseErrorKey, ps)
    case End => FinishParam(ps, allowEmpty, c, env, |ps|)
    case Comma(k) =>
      var first :- FinishParam(ps, allowEmpty, c, env, k);
      var rest :- ParameterList(ps[k + 1..], false, c, env);
      Parsed(first + rest)
  }

  /** The loop of parseParameterList over idx, callLevel and inString. */
  method ParseParameterList(ps: string, allowEmpty: bool, c: Context, env: Env) returns (r: Parsed<seq<Receiver>>)
    ensures r == ParameterList(ps, allowEmpty, c, env)
    decreases |ps|
  {
    var idx := 0;
    var callLevel := 0;
    var inString := false;
    while true
      invariant 0 <= idx <= |ps|
      invariant Scan(ps, idx, callLevel, inString) == Scan(ps, 0, 0, false)
      decreases |ps| - idx
    {
      if idx == |ps| {
        if inString || callLevel > 0 {
          return ParseError(ParseErrorKey, ps);
        }
        return FinishParam(ps, allowEmpty, c, env, idx);
      }
      var next := ps[idx];
      idx := idx + 1;
      if next == ',' {
        if !inString && callLevel == 0 {
          var first := FinishParam(ps, allowEmpty, c, env, idx - 1);
          if first.ParseError? {
            return ParseError(first.key, first.argument);
          }
          var rest := ParseParameterList(ps[idx..], false, c, env);
          if rest.ParseError? {
            return rest;
          }
          return Parsed(first.value + rest.value);
        }
      } else if next == '"' {
        inString := !inString;
      } else if next == '(' {
        if !inString {
          callLevel := callLevel + 1;
        }
      } else if next == ')' {
        if !inString {
          if callLevel == 0 {
            return ParseError(ParseErrorKey, ps);
          }
          callLevel := callLevel - 1;
        }
      }
    }
  }

  /**
   * A comma where the scan splits is at the top level: the segment before
   * it scans to its end at depth 0 outside any string, without a comma of
   * its own at the top level and without an unmatched ")".
   */
  lemma {:induction false} ScanSegmentBalanced(ps: string, i: nat, level: nat, inString: bool)
    requires i <= |ps|
    ensures Scan(ps, i, level, inString).Comma? ==>
      Scan(ps[..Scan(ps, i, level, inString).at], i, level, inString) == End
    decreases |ps| - i
  {
    if i < |ps| {
      var r := Scan(ps, i, level, inString);
      if r.Comma? {
        var k := r.at;
        var next := ps[i];
        if next == ',' && !inString && level == 0 {
        } else {
          assert ps[..k][i] == next;
          ScanSegmentBalanced(ps, i + 1, if next == '"' || (next == '(' && !inString) || (next == ')' && !inString) then (if next == '(' then level + 1 else if next == ')' then level - 1 else level) else level,
                              if next == '"' then !inString else inString);
        }
      }
    }
  }

  /** Commas inside a string literal or inside nested parentheses never split. */
  lemma SplitOnlyAtTopLevel(ps: string)
    ensures Scan(ps, 0, 0, false).Comma? ==>
      var k := Scan(ps, 0, 0, false).at;
      ps[k] == ',' && Scan(ps[..k], 0, 0, false) == End
  {
    ScanSegmentBalanced(ps, 0, 0, false);
  }

  /** Reaching the end inside a string literal is an error. */
  lemma {:induction false} UnclosedStringFails(ps: string, i: nat, level: nat)
    requires i <= |ps|
    requires forall j :: i <= j < |ps| ==> ps[j] != '"'
    ensures Scan(ps, i, level, true) == Unbalanced
    decreases |ps| - i
  {
    if i < |ps| {
      UnclosedStringFails(ps, i + 1, level);
    }
  }

  /** Reaching the end with an open call (no ")" and no string after it) is an error. */
  lemma {:induction false} UnclosedCallFails(ps: string, i: nat, level: nat)
    requires i <= |ps| && level > 0
    requires forall j :: i <= j < |ps| ==> ps[j] != ')' && ps[j] != '"'
    ensures Scan(ps, i, level, false) == Unbalanced
    decreases |ps| - i
  {
    if i < |ps| {
      if ps[i] == '(' {
        UnclosedCallFails(ps, i + 1, level + 1);
      } else {
        UnclosedCallFails(ps, i + 1, level);
      }
    }
  }

  /** A ")" at depth 0 outside a string, before any top-level comma, is an error. */
  lemma {:induction false} CloseAtTopLevelFails(ps: string, i: nat, k: nat)
    requires i <= k < |ps| && ps[k] == ')'
    requires forall j :: i <= j < k ==> ps[j] != ',' && ps[j] != '"' && ps[j] != '(' && ps[j] != ')'
    ensures Scan(ps, i, 0, false) == Unbalanced
    decreases k - i
  {
    if i < k {
      CloseAtTopLevelFails(ps, i + 1, k);
    }
  }

  /** An unbalanced parameter list is a parse error, whatever its contents. */
  lemma UnbalancedListFails(ps: string, allowEmpty: bool, c: Context, env: Env)
    requires Scan(ps, 0, 0, false) == Unbalanced
    ensures ParameterList(ps, allowEmpty, c, env) == ParseError(ParseErrorKey, ps)
  {
  }

  /**
   * An empty segment is tolerated only in first position: "" is the empty
   * list, a leading comma is skipped, and an empty segment after a comma
   * (such as a trailing one) is an error.
   */
  lemma EmptySegments(ps: string, allowEmpty: bool, c: Context, env: Env)
    ensures ParameterList("", true, c, env) == Parsed([])
    ensures ParameterList("", false, c, env).ParseError?
    ensures |ps| > 0 && ps[0] == ',' ==>
      ParameterList(ps, allowEmpty, c, env) ==
        if allowEmpty then ParameterList(ps[1..], false, c, env) else ParseError(ParseErrorKey, ps)
    ensures |ps| > 0 && Scan(ps, 0, 0, false) == Comma(|ps| - 1) ==> ParameterList(ps, allowEmpty, c, env).ParseError?
  {
    assert Scan("", 0, 0, false) == End;
    if |ps| > 0 && ps[0] == ',' {
      LeadingComma(ps, allowEmpty, c, env);
    }
    if |ps| > 0 && Scan(ps, 0, 0, false) == Comma(|ps| - 1) {
      assert ps[|ps| - 1..][1..] == "";
      assert ParameterList(ps[|ps|..], false, c, env).ParseError?;
    }
  }

  lemma LeadingComma(ps: string, allowEmpty: bool, c: Context, env: Env)
    requires |ps| > 0 && ps[0] == ','
    ensures ParameterList(ps, allowEmpty, c, env) ==
      if allowEmpty then ParameterList(ps[1..], false, c, env) else ParseError(ParseErrorKey, ps)
  {
    assert Scan(ps, 0, 0, false) == Comma(0);
    var first := FinishParam(ps, allowEmpty, c, env, 0);
    if allowEmpty {
      assert first == Parsed([]);
      match ParameterList(ps[1..], false, c, env)
      case Parsed(rest) => assert [] + rest == rest;
      case ParseError(_, _) =>
    }
  }

  /** A list scanned to its end without a top-level comma is one parameter (or none when empty). */
  lemma SingleParameter(ps: string, c: Context, env: Env)
    requires ps != [] && Scan(ps, 0, 0, false) == End
    ensures ParameterList(ps, true, c, env).Parsed? <==> Parse(ps, c, env, AllForms).Parsed?
    ensures ParameterList(ps, true, c, env).Parsed? ==>
      ParameterList(ps, true, c, env).value == [Parse(ps, c, env, AllForms).value]
  {
    assert ps[..|ps|] == ps;
  }

  // ---------------------------------------------------------------------
  // Properties of parse
  // ---------------------------------------------------------------------

  /** The text of parameter reference #d. */
  function ParameterText(d: string): (s: string)
    ensures |s| == |d| + 1 && s[0] == '#' && s[1..] == d
  {
    "#" + d
  }

  /**
   * #n is the n-th argument (counting from 1) when there are at least n
   * arguments, and an index-too-big error otherwise.
   */
  lemma ParseParameterReference(d: string, c: Context, env: Env, fl: Flags)
    requires IsIntLiteral(d) && fl.allowParameter
    ensures DigitsValue(d) >= 1
    ensures Parse(ParameterText(d), c, env, fl) ==
      if DigitsValue(d) <= |c.arguments| then Parsed(c.arguments[DigitsValue(d) - 1])
      else ParseError(IndexTooBigKey, d)
  {
    var s := ParameterText(d);
    IntLiteralPositive(d);
    ParseOfTrimmed(s, c, env, fl);
    NoWordStart(s);
    assert FormOf(s, fl) == ParameterForm;
  }

  /** #0, or #0 followed by digits, is not a parameter: it is a parse error. */
  lemma ZeroIsNotAParameter(d: string, c: Context, env: Env)
    requires IsDigits(d)
    ensures Parse("#0" + d, c, env, AllForms) == ParseError(ParseErrorKey, "#0" + d)
  {
    var s := "#0" + d;
    assert s[0] == '#' && s[1] == '0' && s[1..][0] == '0';
    assert s[|s| - 1] > ' ' by {
      if d != [] { assert s[|s| - 1] == d[|d| - 1]; }
    }
    ParseOfTrimmed(s, c, env, AllForms);
    NoWordStart(s);
    assert IndexOf(s, '.') == |s| by {
      forall j | 0 <= j < |s| ensures s[j] != '.' {
        if j >= 2 { assert s[j] == d[j - 2]; }
      }
    }
    assert FormOf(s, AllForms) == NoForm;
  }

  /** "null" is a literal whatever fields or classes the environment knows: literals are tried before lookup. */
  lemma NullIsALiteral(c: Context, env: Env)
    ensures Parse("null", c, env, AllForms) == Parsed(ValueLiteral("null"))
  {
    ParseOfTrimmed("null", c, env, AllForms);
    assert !IsIntLiteral("null");
    assert FormOf("null", AllForms) == NullForm;
  }

  /** "this" is the self reference whatever the environment knows. */
  lemma ThisIsTheReceiver(c: Context, env: Env)
    ensures Parse("this", c, env, AllForms) == Parsed(ThisReference)
  {
    ParseOfTrimmed("this", c, env, AllForms);
    assert !IsIntLiteral("this") && !IsLongLiteral("this");
    assert "this" != "null";
    assert !IsStringLiteral("this");
    assert FormOf("this", AllForms) == SelfForm;
  }

  /** How parse treats a trimmed string of each literal form. */
  lemma ParseLiteralForm(s: string, c: Context, env: Env, fl: Flags)
    requires IsTrimmed(s)
    requires FormOf(s, fl) in {IntForm, NullForm, LongForm, StringForm}
    ensures Parse(s, c, env, fl) == Parsed(ValueLiteral(s))
  {
    ParseOfTrimmed(s, c, env, fl);
  }

  /** A number without leading zero is an int literal. */
  lemma IntegersAreLiterals(d: string, c: Context, env: Env)
    requires IsIntLiteral(d)
    ensures Parse(d, c, env, AllForms) == Parsed(ValueLiteral(d))
  {
    assert FormOf(d, AllForms) == IntForm;
    ParseLiteralForm(d, c, env, AllForms);
  }

  /** A number without leading zero followed by L is a long literal. */
  lemma LongsAreLiterals(d: string, c: Context, env: Env)
    requires IsIntLiteral(d)
    ensures Parse(d + "L", c, env, AllForms) == Parsed(ValueLiteral(d + "L"))
  {
    var l := d + "L";
    assert l[..|l| - 1] == d;
    assert l[0] == d[0];
    assert !IsIntLiteral(l) by { assert !IsDigit(l[|l| - 1]); }
    assert l != "null" by { assert l[0] != 'n'; }
    assert FormOf(l, AllForms) == LongForm;
    ParseLiteralForm(l, c, env, AllForms);
  }

  /**
   * Any other identifier is looked up: a field of the receiver (through its
   * class when static), else a class name, else a parse error.
   */
  lemma IdentifiersAreLookedUp(s: string, c: Context, env: Env)
    requires IsIdentifier(s) && s != "null" && s != "this" && s != "super"
    ensures Parse(s, c, env, AllForms) == ResolveIdentifier(s, c, env)
    ensures env.findField(c.receiver, s).Some? ==>
      Parse(s, c, env, AllForms).Parsed? && Parse(s, c, env, AllForms).value.field == env.findField(c.receiver, s).value
    ensures env.findField(c.receiver, s).Some? && !env.findField(c.receiver, s).value.isStatic ==>
      Parse(s, c, env, AllForms).value.receiver == c.receiver
  {
    assert !IsDigit(s[0]);
    assert !IsIntLiteral(s) && !IsLongLiteral(s) && !IsStringLiteral(s);
    assert FormOf(s, AllForms) == IdentifierForm;
    assert IsTrimmed(s);
    ParseOfTrimmed(s, c, env, AllForms);
  }

  /** "super" is a self reference when the receiver's type has a superclass, and an error otherwise. */
  lemma SuperNeedsASuperclass(c: Context, env: Env)
    ensures Parse("super", c, env, AllForms) ==
      if env.hasSuperclass(c.receiver) then Parsed(ThisReference) else ParseError(ParseErrorKey, "super")
  {
    ParseOfTrimmed("super", c, env, AllForms);
    assert !IsIntLiteral("super") && !IsLongLiteral("super") && !IsStringLiteral("super");
    assert "super" != "null" && "super" != "this";
    assert FormOf("super", AllForms) == SuperForm;
  }

  /** "0", or 0 followed by digits, is not an int literal (a leading nonzero digit is required), and so it does not parse. */
  lemma ZeroIsNotALiteral(d: string, c: Context, env: Env)
    requires IsDigits(d)
    ensures Parse("0" + d, c, env, AllForms) == ParseError(ParseErrorKey, "0" + d)
  {
    var s := "0" + d;
    assert s[|s| - 1] > ' ' by {
      if d != [] { assert s[|s| - 1] == d[|d| - 1]; }
    }
    assert forall j :: 0 <= j < |s| ==> IsDigit(s[j]) by {
      forall j | 0 <= j < |s| ensures IsDigit(s[j]) {
        if j >= 1 { assert s[j] == d[j - 1]; }
      }
    }
    ZeroLedDigitsHaveNoForm(s);
    ParseOfTrimmed(s, c, env, AllForms);
  }

  /** A digit string led by 0 matches none of the forms parse tries. */
  lemma ZeroLedDigitsHaveNoForm(s: string)
    requires |s| >= 1 && s[0] == '0'
    requires forall j :: 0 <= j < |s| ==> IsDigit(s[j])
    ensures IsTrimmed(s) && FormOf(s, AllForms) == NoForm
  {
    assert !IsIntLiteral(s) && !IsIdentifier(s) && !IsParameter(s);
    assert !IsLongLiteral(s) && !IsStringLiteral(s);
    assert s != "null" && s != "this" && s != "super";
    assert IndexOf(s, '(') == |s| && IndexOf(s, '.') == |s|;
  }

  /** A dot after the first character rules out every form that precedes the dotted one, but the string and method forms. */
  lemma DotRulesOutWords(s: string, k: nat)
    requires 1 <= k < |s| - 1 && s[k] == '.'
    ensures !IsIntLiteral(s) && !IsLongLiteral(s) && !IsIdentifier(s) && !IsParameter(s)
    ensures s != "null" && s != "this" && s != "super"
  {
    assert !IsDigit(s[k]) && !IsIdentifierPart(s[k]);
    assert s[..|s| - 1][k] == s[k];
    assert s[1..][k - 1] == s[k];
  }

  /** How parse treats a trimmed string of the dotted form. */
  lemma ParseDotForm(s: string, c: Context, env: Env, fl: Flags)
    requires IsTrimmed(s) && FormOf(s, fl) == DotForm
    ensures Parse(s, c, env, fl) == ParseDotted(s, c, env)
  {
    ParseOfTrimmed(s, c, env, fl);
  }

  /**
   * A dotted expression splits at its first "."; the receiver is parsed
   * with every form allowed and the rest with MemberForms against the new
   * receiver.
   */
  lemma DottedSplitsAtFirstDot(r: string, t: string, c: Context, env: Env)
    requires r != [] && '.' !in r && r[0] > ' '
    requires t != [] && NoLineTerminators(t) && t[|t| - 1] > ' '
    requires !IsStringLiteral(r + "." + t) && !IsMethodCall(r + "." + t)
    ensures Parse(r + "." + t, c, env, AllForms) ==
      var head := Parse(r, c, env, AllForms);
      if head.ParseError? then ParseError(head.key, head.argument)
      else Parse(t, ChangeReceiver(c, head.value), env, MemberForms)
  {
    var s := r + "." + t;
    assert s[|r|] == '.';
    assert IndexOf(s, '.') == |r| by {
      assert forall j :: 0 <= j < |r| ==> s[j] == r[j];
    }
    assert s[..|r|] == r && s[|r| + 1..] == t;
    DotRulesOutWords(s, |r|);
    assert FormOf(s, AllForms) == DotForm;
    assert s[0] == r[0] && s[|s| - 1] == t[|t| - 1];
    ParseDotForm(s, c, env, AllForms);
  }

  /** After a dot, "#n" is rejected: "#1.#2", and any "#i.#j", is a parse error in every context. */
  lemma ParameterAfterDotFails(i: string, j: string, c: Context, env: Env)
    requires IsIntLiteral(i) && IsIntLiteral(j)
    ensures Parse(ParameterText(i) + "." + ParameterText(j), c, env, AllForms).ParseError?
  {
    var r, t := ParameterText(i), ParameterText(j);
    var s := r + "." + t;
    assert s[0] == '#';
    NoWordStart(s);
    assert '.' !in r by {
      forall m | 1 <= m < |r| ensures r[m] != '.' {
        assert r[m] == i[m - 1];
      }
    }
    assert NoLineTerminators(t) && t[|t| - 1] > ' ' by {
      assert forall m :: 1 <= m < |t| ==> t[m] == j[m - 1];
    }
    DottedSplitsAtFirstDot(r, t, c, env);
    var head := Parse(r, c, env, AllForms);
    if head.Parsed? {
      assert IsParameter(t) && IsTrimmed(t);
      MemberFormsRejectParametersAndLiterals(t, ChangeReceiver(c, head.value), env);
    }
  }

  /** The forms MemberForms excludes are errors there, whatever the environment. */
  lemma MemberFormsRejectParametersAndLiterals(s: string, c: Context, env: Env)
    requires IsTrimmed(s)
    requires IsParameter(s) || IsIntLiteral(s) || IsLongLiteral(s)
    ensures Parse(s, c, env, MemberForms) == ParseError(ParseErrorKey, s)
  {
    ParseOfTrimmed(s, c, env, MemberForms);
    NoCallOrDot(s);
    assert FormOf(s, MemberForms) == NoForm;
  }

  /** Parameters and number literals contain neither "(" nor "." and are not identifiers. */
  lemma NoCallOrDot(s: string)
    requires IsParameter(s) || IsIntLiteral(s) || IsLongLiteral(s)
    ensures !IsIdentifier(s) && !IsMethodCall(s) && !IsDotted(s)
  {
    assert forall j :: 0 <= j < |s| ==> s[j] == '#' || IsDigit(s[j]) || s[j] == 'L' by {
      forall j | 0 <= j < |s| ensures s[j] == '#' || IsDigit(s[j]) || s[j] == 'L' {
        if IsParameter(s) {
          if j >= 1 { assert s[j] == s[1..][j - 1]; }
        } else if IsLongLiteral(s) && j < |s| - 1 {
          assert s[j] == s[..|s| - 1][j];
        }
      }
    }
    assert !IsIdentifier(s) by {
      if IsLongLiteral(s) { assert s[0] == s[..|s| - 1][0]; }
    }
    assert IndexOf(s, '(') == |s| && IndexOf(s, '.') == |s|;
  }

  /** The arguments of a method call are parsed against the outer receiver, never the current one. */
  lemma MethodArgumentsUseOuterReceiver(s: string, c: Context, receiver: Receiver, env: Env)
    requires IsTrimmed(s) && IsMethodCall(s)
    ensures var k := IndexOf(s, '(');
      var r := Parse(s, ChangeReceiver(c, receiver), env, MemberForms);
      r.Parsed? ==>
        r.value.PureMethodCall? &&
        ParameterList(s[k + 1..|s| - 1], true, UseOuterReceiver(c), env) == Parsed(r.value.parameters)
  {
    var c2 := ChangeReceiver(c, receiver);
    MethodCallForm(s);
    ParseOfTrimmed(s, c2, env, MemberForms);
    assert Parse(s, c2, env, MemberForms) == ParseCall(s, c2, env);
    UseOuterIgnoresChange(c, receiver);
  }

  /** A method call is not an identifier, so after a dot it takes the method form. */
  lemma MethodCallForm(s: string)
    requires IsMethodCall(s)
    ensures FormOf(s, MemberForms) == MethodForm
  {
    var k := IndexOf(s, '(');
    assert !IsIdentifier(s) by { assert s[k] == '('; }
  }

  // ---------------------------------------------------------------------
  // parameterIndices
  // ---------------------------------------------------------------------

  /** The number of leading digits of t. */
  function DigitRun(t: string): (n: nat)
    ensures n <= |t| && IsDigits(t[..n]) && (n == |t| || !IsDigit(t[n]))
  {
    if t != [] && IsDigit(t[0]) then
      var n := 1 + DigitRun(t[1..]);
      assert forall j :: 1 <= j < n ==> t[..n][j] == t[1..][..n - 1][j - 1];
      n
    else 0
  }

  /** The run computed by the loop is the digit run. */
  lemma {:induction false} DigitRunExact(t: string, n: nat)
    requires n <= |t| && IsDigits(t[..n]) && (n == |t| || !IsDigit(t[n]))
    ensures DigitRun(t) == n
    decreases n
  {
    if n > 0 {
      assert t[..n][0] == t[0];
      assert t[1..][..n - 1] == t[..n][1..];
      DigitRunExact(t[1..], n - 1);
    }
  }

  /**
   * The indices of every match of #[1-9][0-9]* in s, left to right, each
   * match resuming after the end of the previous one.
   */
  function Indices(s: string): (r: seq<nat>)
    ensures forall i :: 0 <= i < |r| ==> r[i] >= 1
    decreases |s|
  {
    if |s| < 2 then []
    else if s[0] == '#' && IsNonzeroDigit(s[1]) then
      var t := s[1..];
      var n := DigitRun(t);
      assert n >= 1 by { assert t[0] == s[1]; }
      assert t[..n] == s[1..1 + n];
      assert forall m :: 1 <= m < n ==> IsDigit(t[..n][m]);
      IntLiteralPositive(s[1..1 + n]);
      [DigitsValue(s[1..1 + n])] + Indices(s[1 + n..])
    else Indices(s[1..])
  }

  /** One match of the loop: #, a nonzero digit, and the maximal digit run from there to j. */
  lemma IndicesMatch(s: string, i: nat, j: nat)
    requires i + 1 < j <= |s| && s[i] == '#' && IsNonzeroDigit(s[i + 1])
    requires forall m :: i + 1 <= m < j ==> IsDigit(s[m])
    requires j == |s| || !IsDigit(s[j])
    ensures Indices(s[i..]) == [DigitsValue(s[i + 1..j])] + Indices(s[j..])
  {
    var u := s[i..];
    assert u[1..] == s[i + 1..];
    assert s[i + 1..][..j - (i + 1)] == s[i + 1..j];
    DigitRunExact(s[i + 1..], j - (i + 1));
    assert u[1..1 + (j - (i + 1))] == s[i + 1..j];
    assert u[1 + (j - (i + 1))..] == s[j..];
  }

  /** No match starts at i: the search moves on by one character. */
  lemma IndicesSkip(s: string, i: nat)
    requires i < |s|
    requires !(i + 1 < |s| && s[i] == '#' && IsNonzeroDigit(s[i + 1]))
    ensures Indices(s[i..]) == Indices(s[i + 1..])
  {
    if i + 1 < |s| {
      assert s[i..][1..] == s[i + 1..];
    }
  }

  /** A string without # names no parameter. */
  lemma {:induction false} NoHashNoIndices(s: string)
    requires '#' !in s
    ensures Indices(s) == []
    decreases |s|
  {
    if |s| >= 2 {
      assert s[0] != '#';
      assert '#' !in s[1..];
      NoHashNoIndices(s[1..]);
    }
  }

  /** A parameter reference followed by a non-digit contributes its index before those of the rest. */
  lemma IndicesOfParameterThenRest(d: string, t: string)
    requires IsIntLiteral(d)
    requires t == [] || !IsDigit(t[0])
    ensures Indices(ParameterText(d) + t) == [DigitsValue(d)] + Indices(t)
  {
    var s := ParameterText(d) + t;
    assert s[1..] == d + t;
    assert IsDigits(d) by {
      forall j | 0 <= j < |d| ensures IsDigit(d[j]) {
        if j >= 1 { assert d[j] == d[1..][j - 1]; }
      }
    }
    assert (d + t)[..|d|] == d;
    DigitRunExact(d + t, |d|);
    assert s[1..1 + |d|] == d;
    assert s[1 + |d|..] == t;
  }

  /** parameterIndices: the loop over successive matches. */
  method ParameterIndices(s: string) returns (result: seq<nat>)
    ensures result == Indices(s)
  {
    result := [];
    var i := 0;
    while i < |s|
      invariant 0 <= i <= |s|
      invariant result + Indices(s[i..]) == Indices(s)
      decreases |s| - i
    {
      if i + 1 < |s| && s[i] == '#' && IsNonzeroDigit(s[i + 1]) {
        var j := i + 1;
        while j < |s| && IsDigit(s[j])
          invariant i + 1 <= j <= |s|
          invariant forall m :: i + 1 <= m < j ==> IsDigit(s[m])
          decreases |s| - j
        {
          j := j + 1;
        }
        IndicesMatch(s, i, j);
        result := result + [DigitsValue(s[i + 1..j])];
        i := j;
      } else {
        IndicesSkip(s, i);
        i := i + 1;
      }
    }
  }
}

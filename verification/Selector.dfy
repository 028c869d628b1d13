/** Label selectors: splitting, parsing, matching, and the syntax they are written in. */
module Selector {
  import opened Options
  import opened Text

  datatype Operator = Exists | NotExists | Equals | NotEquals | In | NotIn

  datatype Requirement = Requirement(key: string, operator: Operator, values: seq<string>)

  datatype Parsed<+T> = Parsed(value: T) | Invalid

  // Splitting at the commas outside parentheses.

  /** `current` is what has been read since the last comma, `depth` the open parentheses. */
  function SplitFrom(rest: string, current: string, depth: nat): Parsed<seq<string>>
    decreases |rest|
  {
    if rest == [] then
      if depth != 0 || TrimSpace(current) == "" then Invalid else Parsed([TrimSpace(current)])
    else if rest[0] == '(' then SplitFrom(rest[1..], current + [rest[0]], depth + 1)
    else if rest[0] == ')' then
      if depth == 0 then Invalid else SplitFrom(rest[1..], current + [rest[0]], depth - 1)
    else if rest[0] == ',' && depth == 0 then
      if TrimSpace(current) == "" then Invalid else Ahead([TrimSpace(current)], SplitFrom(rest[1..], "", 0))
    else SplitFrom(rest[1..], current + [rest[0]], depth)
  }

  function Ahead<T>(front: seq<T>, rest: Parsed<seq<T>>): Parsed<seq<T>> {
    match rest
    case Invalid => Invalid
    case Parsed(items) => Parsed(front + items)
  }

  lemma AheadTwice<T>(a: seq<T>, b: seq<T>, rest: Parsed<seq<T>>)
    ensures Ahead(a, Ahead(b, rest)) == Ahead(a + b, rest)
  {
    if rest.Parsed? {
      assert a + (b + rest.value) == (a + b) + rest.value;
    }
  }

  /** A blank selector has no expressions. */
  function SplitText(raw: string): Parsed<seq<string>> {
    if TrimSpace(raw) == "" then Parsed([]) else SplitFrom(TrimSpace(raw), "", 0)
  }

  method SplitSelectorExpressions(raw: string) returns (result: Parsed<seq<string>>)
    ensures result == SplitText(raw)
  {
    hide SplitFrom, TrimSpace;
    var text := TrimSpace(raw);
    if text == "" {
      return Parsed([]);
    }
    var expressions: seq<string> := [];
    var start, depth := 0, 0;
    assert text[0..] == text && text[0..0] == "";
    AheadNothing(SplitFrom(text, "", 0));
    for i := 0 to |text|
      invariant 0 <= start <= i && depth >= 0
      invariant SplitFrom(text, "", 0) == Ahead(expressions, SplitFrom(text[i..], text[start..i], depth))
    {
      SplitStep(text, start, i, depth);
      if text[i] == '(' {
        depth := depth + 1;
      } else if text[i] == ')' {
        if depth == 0 {
          return Invalid;
        }
        depth := depth - 1;
      } else if text[i] == ',' && depth == 0 {
        var expression := TrimSpace(text[start..i]);
        if expression == "" {
          return Invalid;
        }
        AheadTwice(expressions, [expression], SplitFrom(text[i + 1..], "", 0));
        expressions := expressions + [expression];
        start := i + 1;
      }
    }
    SplitEnd(text, start, depth);
    if depth != 0 {
      return Invalid;
    }
    var tail := TrimSpace(text[start..]);
    if tail == "" {
      return Invalid;
    }
    return Parsed(expressions + [tail]);
  }

  lemma AheadNothing<T>(rest: Parsed<seq<T>>)
    ensures Ahead([], rest) == rest
  {
    if rest.Parsed? {
      assert [] + rest.value == rest.value;
    }
  }

  /** What is split has its parentheses closed in order, and no part is blank or has white space around it. */
  lemma {:induction false} SplitIsBalanced(rest: string, current: string, depth: nat)
    requires SplitFrom(rest, current, depth).Parsed?
    ensures forall part :: part in SplitFrom(rest, current, depth).value ==> part != "" && Trimmed(part)
    ensures multiset(rest)[')'] == depth + multiset(rest)['(']
    ensures forall i :: 0 <= i <= |rest| ==> multiset(rest[..i])[')'] <= depth + multiset(rest[..i])['(']
    decreases |rest|
  {
    if rest != [] {
      var more := rest[1..];
      var deeper := if rest[0] == '(' then depth + 1 else if rest[0] == ')' then depth - 1 else depth;
      if rest[0] == ',' && depth == 0 {
        SplitIsBalanced(more, "", 0);
      } else {
        SplitIsBalanced(more, current + [rest[0]], deeper);
      }
      assert rest == [rest[0]] + more;
      forall i | 0 <= i <= |rest| ensures multiset(rest[..i])[')'] <= depth + multiset(rest[..i])['('] {
        if i > 0 {
          assert rest[..i] == [rest[0]] + more[..i - 1];
        }
      }
    }
  }

  lemma SplitStep(text: string, start: nat, i: nat, depth: nat)
    requires start <= i < |text|
    ensures var c, current, next := text[i], text[start..i], text[start..i + 1];
            SplitFrom(text[i..], current, depth) ==
              if c == '(' then SplitFrom(text[i + 1..], next, depth + 1)
              else if c == ')' then (if depth == 0 then Invalid else SplitFrom(text[i + 1..], next, depth - 1))
              else if c == ',' && depth == 0 then
                (if TrimSpace(current) == "" then Invalid
                 else Ahead([TrimSpace(current)], SplitFrom(text[i + 1..], text[i + 1..i + 1], 0)))
              else SplitFrom(text[i + 1..], next, depth)
    ensures text[i + 1..i + 1] == ""
  {
    hide TrimSpace;
    var rest := text[i..];
    assert rest[0] == text[i] && rest[1..] == text[i + 1..];
    assert text[start..i] + [text[i]] == text[start..i + 1];
  }

  lemma SplitEnd(text: string, start: nat, depth: nat)
    requires start <= |text|
    ensures SplitFrom(text[|text|..], text[start..|text|], depth) ==
            if depth != 0 || TrimSpace(text[start..]) == "" then Invalid else Parsed([TrimSpace(text[start..])])
  {
    assert text[|text|..] == [] && text[start..|text|] == text[start..];
  }

  // Parsing one expression.

  function LowerChar(c: char): char {
    if 'A' <= c <= 'Z' then (c as int + 32) as char else c
  }

  function Lower(s: string): (t: string)
    ensures |t| == |s|
  {
    seq(|s|, i requires 0 <= i < |s| => LowerChar(s[i]))
  }

  /** Values of a set expression: trimmed, in order, repeated ones once; none may be blank. */
  function SetValues(items: seq<string>): Parsed<seq<string>> {
    if items == [] then Parsed([])
    else
      var value := TrimSpace(items[|items| - 1]);
      match SetValues(items[..|items| - 1])
      case Invalid => Invalid
      case Parsed(values) =>
        if value == "" then Invalid else if value in values then Parsed(values) else Parsed(values + [value])
  }

  method ParseSetSelectorValues(raw: string) returns (result: Parsed<seq<string>>)
    ensures result == SetValues(SplitOn(raw, ','))
  {
    hide SplitOn, TrimSpace;
    var items := SplitOn(raw, ',');
    var values: seq<string> := [];
    var seen: set<string> := {};
    for i := 0 to |items|
      invariant SetValues(items[..i]) == Parsed(values)
      invariant forall v :: v in seen <==> v in values
    {
      assert items[..i + 1][..i] == items[..i];
      var value := TrimSpace(items[i]);
      if value == "" {
        InvalidStays(items, i + 1);
        return Invalid;
      }
      if value !in seen {
        seen := seen + {value};
        values := values + [value];
      }
    }
    assert items[..|items|] == items;
    return Parsed(values);
  }

  lemma {:induction false} InvalidStays(items: seq<string>, i: nat)
    requires i <= |items| && SetValues(items[..i]) == Invalid
    ensures SetValues(items) == Invalid
    decreases |items| - i
  {
    if i < |items| {
      assert items[..i + 1][..i] == items[..i];
      InvalidStays(items, i + 1);
    } else {
      assert items[..i] == items;
    }
  }

  datatype SetParse = NotASet | SetExpression(result: Parsed<Requirement>)

  const NOT_IN := " notin"
  const IS_IN := " in"

  function ParseSetExpression(expression: string): SetParse {
    match IndexOf(Lower(expression), NOT_IN)
    case Some(i) => SetExpression(ParseSetAt(expression, i, |NOT_IN|, NotIn))
    case None =>
      match IndexOf(Lower(expression), IS_IN)
      case Some(i) => SetExpression(ParseSetAt(expression, i, |IS_IN|, In))
      case None => NotASet
  }

  function ParseSetAt(expression: string, index: nat, length: nat, operator: Operator): Parsed<Requirement>
    requires index + length <= |expression|
  {
    var key := TrimSpace(expression[..index]);
    var text := TrimSpace(expression[index + length..]);
    if key == "" then Invalid
    else if !(text != "" && text[0] == '(' && text[|text| - 1] == ')') then Invalid
    else
      match SetValues(SplitOn(text[1..|text| - 1], ','))
      case Invalid => Invalid
      case Parsed(values) => if values == [] then Invalid else Parsed(Requirement(key, operator, values))
  }

  function ParseBinary(expression: string, index: nat, length: nat, operator: Operator): Parsed<Requirement>
    requires index + length <= |expression|
  {
    var key := TrimSpace(expression[..index]);
    var value := TrimSpace(expression[index + length..]);
    if key == "" || value == "" then Invalid else Parsed(Requirement(key, operator, [value]))
  }

  function ParseExpression(raw: string): Parsed<Requirement> {
    var expression := TrimSpace(raw);
    if expression == "" then Invalid
    else
      match ParseSetExpression(expression)
      case SetExpression(result) => result
      case NotASet => ParseComparison(expression)
  }

  function ParseComparison(expression: string): Parsed<Requirement>
    requires expression != "" && Trimmed(expression)
  {
    match IndexOf(expression, "!=")
    case Some(i) => ParseBinary(expression, i, 2, NotEquals)
    case None =>
      match IndexOf(expression, "==")
      case Some(i) => ParseBinary(expression, i, 2, Equals)
      case None =>
        match IndexOf(expression, "=")
        case Some(i) => ParseBinary(expression, i, 1, Equals)
        case None =>
          if expression[0] == '!' then
            var key := TrimSpace(expression[1..]);
            if key == "" then Invalid else Parsed(Requirement(key, NotExists, []))
          else Parsed(Requirement(expression, Exists, []))
  }

  function ParseEach(expressions: seq<string>): Parsed<seq<Requirement>> {
    if expressions == [] then Parsed([])
    else
      match ParseEach(expressions[..|expressions| - 1])
      case Invalid => Invalid
      case Parsed(front) =>
        match ParseExpression(expressions[|expressions| - 1])
        case Invalid => Invalid
        case Parsed(requirement) => Parsed(front + [requirement])
  }

  function ParseItem(item: string): Parsed<seq<Requirement>> {
    match SplitText(item)
    case Invalid => Invalid
    case Parsed(expressions) => ParseEach(expressions)
  }

  /** Several selector parameters are joined by AND. */
  function ParseItems(items: seq<string>): Parsed<seq<Requirement>> {
    if items == [] then Parsed([])
    else
      match ParseItems(items[..|items| - 1])
      case Invalid => Invalid
      case Parsed(front) => Ahead(front, ParseItem(items[|items| - 1]))
  }

  method ParseLabelSelectors(items: seq<string>) returns (result: Parsed<seq<Requirement>>)
    ensures result == ParseItems(items)
  {
    var selector: seq<Requirement> := [];
    for i := 0 to |items|
      invariant ParseItems(items[..i]) == Parsed(selector)
    {
      assert items[..i + 1][..i] == items[..i];
      var split := SplitSelectorExpressions(items[i]);
      var parsed := if split.Invalid? then Invalid else ParseEach(split.value);
      if parsed.Invalid? {
        InvalidItemStays(items, i + 1);
        return Invalid;
      }
      selector := selector + parsed.value;
    }
    assert items[..|items|] == items;
    return Parsed(selector);
  }

  lemma {:induction false} InvalidItemStays(items: seq<string>, i: nat)
    requires i <= |items| && ParseItems(items[..i]) == Invalid
    ensures ParseItems(items) == Invalid
    decreases |items| - i
  {
    if i < |items| {
      assert items[..i + 1][..i] == items[..i];
      InvalidItemStays(items, i + 1);
    } else {
      assert items[..i] == items;
    }
  }

  // Matching.

  predicate NoRepeats(values: seq<string>) {
    forall i, j :: 0 <= i < j < |values| ==> values[i] != values[j]
  }

  /** What every parsed requirement looks like: exactly the values its operator reads. */
  predicate WellFormed(r: Requirement) {
    && r.key != "" && Trimmed(r.key)
    && (forall v :: v in r.values ==> v != "" && Trimmed(v))
    && match r.operator
       case Exists => r.values == []
       case NotExists => r.values == []
       case Equals => |r.values| == 1
       case NotEquals => |r.values| == 1
       case In => r.values != [] && NoRepeats(r.values)
       case NotIn => r.values != [] && NoRepeats(r.values)
  }

  function Matches(labels: map<string, string>, r: Requirement): bool
    requires WellFormed(r)
  {
    var exists_ := r.key in labels;
    match r.operator
    case Exists => exists_
    case NotExists => !exists_
    case Equals => exists_ && labels[r.key] == r.values[0]
    case NotEquals => !exists_ || labels[r.key] != r.values[0]
    case In => exists_ && labels[r.key] in r.values
    case NotIn => !exists_ || labels[r.key] !in r.values
  }

  predicate AllWellFormed(selector: seq<Requirement>) {
    forall r :: r in selector ==> WellFormed(r)
  }

  method MatchesLabelSelector(labels: map<string, string>, selector: seq<Requirement>) returns (all: bool)
    requires AllWellFormed(selector)
    ensures all <==> forall r :: r in selector ==> Matches(labels, r)
  {
    for i := 0 to |selector|
      invariant forall r :: r in selector[..i] ==> Matches(labels, r)
    {
      if !Matches(labels, selector[i]) {
        return false;
      }
    }
    return true;
  }

  lemma {:induction false} SetValuesShape(items: seq<string>)
    requires SetValues(items).Parsed?
    ensures var values := SetValues(items).value;
            NoRepeats(values) && forall v :: v in values ==> v != "" && Trimmed(v)
    decreases |items|
  {
    if items != [] {
      SetValuesShape(items[..|items| - 1]);
    }
  }

  lemma ParsedIsWellFormed(raw: string)
    requires ParseExpression(raw).Parsed?
    ensures WellFormed(ParseExpression(raw).value)
  {
    hide IndexOf, ParseSetAt, ParseComparison, Trimmed, WellFormed, Lower;
    var expression := TrimSpace(raw);
    match IndexOf(Lower(expression), NOT_IN)
    case Some(i) => SetIsWellFormed(expression, i, |NOT_IN|, NotIn);
    case None =>
      match IndexOf(Lower(expression), IS_IN)
      case Some(i) => SetIsWellFormed(expression, i, |IS_IN|, In);
      case None => ComparisonIsWellFormed(expression);
  }

  lemma ComparisonIsWellFormed(expression: string)
    requires expression != "" && Trimmed(expression) && ParseComparison(expression).Parsed?
    ensures WellFormed(ParseComparison(expression).value)
  {
    hide IndexOf, TrimSpace, Trimmed;
  }

  lemma SetIsWellFormed(expression: string, index: nat, length: nat, operator: Operator)
    requires index + length <= |expression| && (operator == In || operator == NotIn)
    requires ParseSetAt(expression, index, length, operator).Parsed?
    ensures WellFormed(ParseSetAt(expression, index, length, operator).value)
  {
    hide TrimSpace, SplitOn, SetValues, Trimmed;
    var text := TrimSpace(expression[index + length..]);
    SetValuesShape(SplitOn(text[1..|text| - 1], ','));
  }

  lemma {:induction false} ParsedEachIsWellFormed(expressions: seq<string>)
    requires ParseEach(expressions).Parsed?
    ensures AllWellFormed(ParseEach(expressions).value)
    decreases |expressions|
  {
    if expressions != [] {
      ParsedEachIsWellFormed(expressions[..|expressions| - 1]);
      ParsedIsWellFormed(expressions[|expressions| - 1]);
    }
  }

  /** Whatever was accepted can be matched: no value is ever missing. */
  lemma {:induction false} AcceptedSelectorsMatch(items: seq<string>)
    requires ParseItems(items).Parsed?
    ensures AllWellFormed(ParseItems(items).value)
    decreases |items|
  {
    if items != [] {
      AcceptedSelectorsMatch(items[..|items| - 1]);
      ParsedEachIsWellFormed(SplitText(items[|items| - 1]).value);
    }
  }

  // Writing selectors, and reading them back.

  function RenderValues(values: seq<string>): string {
    "(" + Join(values, ",") + ")"
  }

  function Render(r: Requirement): string
    requires WellFormed(r)
  {
    match r.operator
    case Exists => r.key
    case NotExists => "!" + r.key
    case Equals => r.key + ("=" + r.values[0])
    case NotEquals => r.key + ("!=" + r.values[0])
    case In => r.key + (IS_IN + (" " + RenderValues(r.values)))
    case NotIn => r.key + (NOT_IN + (" " + RenderValues(r.values)))
  }

  function RenderEach(selector: seq<Requirement>): seq<string>
    requires AllWellFormed(selector)
  {
    if selector == [] then []
    else RenderEach(selector[..|selector| - 1]) + [Render(selector[|selector| - 1])]
  }

  predicate PlainChar(c: char) {
    c < '\U{80}' && !IsSpace(c) && c != ',' && c != '(' && c != ')' && c != '=' && c != '!'
  }

  /** A key or value that the syntax can hold as it is. */
  predicate PlainWord(s: string) {
    s != "" && forall c :: c in s ==> PlainChar(c)
  }

  predicate Printable(r: Requirement) {
    WellFormed(r) && PlainWord(r.key) && forall v :: v in r.values ==> PlainWord(v)
  }

  // What the splitter makes of a text with balanced parentheses.

  /** The open parentheses after a text; None when one closes too early or a comma stands outside. */
  function Walk(s: string, depth: nat): Option<nat> {
    if s == [] then Some(depth)
    else if s[0] == '(' then Walk(s[1..], depth + 1)
    else if s[0] == ')' then (if depth == 0 then None else Walk(s[1..], depth - 1))
    else if s[0] == ',' && depth == 0 then None
    else Walk(s[1..], depth)
  }

  lemma {:induction false} WalkConcat(a: string, b: string, depth: nat)
    ensures Walk(a + b, depth) == match Walk(a, depth) case None => None case Some(d) => Walk(b, d)
    decreases |a|
  {
    if a == [] {
      assert a + b == b;
    } else {
      assert (a + b)[0] == a[0] && (a + b)[1..] == a[1..] + b;
      if a[0] == '(' {
        WalkConcat(a[1..], b, depth + 1);
      } else if a[0] == ')' {
        if depth > 0 { WalkConcat(a[1..], b, depth - 1); }
      } else if !(a[0] == ',' && depth == 0) {
        WalkConcat(a[1..], b, depth);
      }
    }
  }

  lemma {:induction false} WalkPlain(s: string, depth: nat)
    requires forall c :: c in s ==> c != '(' && c != ')' && (c == ',' ==> depth > 0)
    ensures Walk(s, depth) == Some(depth)
    decreases |s|
  {
    if s != [] {
      assert s[0] in s && forall c :: c in s[1..] ==> c in s;
      WalkPlain(s[1..], depth);
    }
  }

  lemma {:induction false} SplitWalks(part: string, rest: string, current: string, depth: nat)
    requires Walk(part, depth).Some?
    ensures SplitFrom(part + rest, current, depth) == SplitFrom(rest, current + part, Walk(part, depth).value)
    decreases |part|
  {
    if part == [] {
      assert part + rest == rest && current + part == current;
    } else {
      var c, tail := part[0], part[1..];
      assert (part + rest)[0] == c && (part + rest)[1..] == tail + rest;
      assert current + part == (current + [c]) + tail;
      var next := if c == '(' then depth + 1 else if c == ')' then depth - 1 else depth;
      SplitWalks(tail, rest, current + [c], next);
    }
  }

  /** A text the splitter keeps in one piece. */
  predicate OnePiece(part: string) {
    part != "" && Trimmed(part) && Walk(part, 0) == Some(0)
  }

  lemma {:induction false} SplitOfPieces(parts: seq<string>)
    requires parts != [] && forall part :: part in parts ==> OnePiece(part)
    ensures SplitFrom(Join(parts, ","), "", 0) == Parsed(parts)
    decreases |parts|
  {
    hide SplitFrom, Walk, TrimSpace, Trimmed;
    var first := parts[0];
    assert first in parts && "" + first == first;
    if |parts| == 1 {
      assert first + "" == first && parts == [first];
      SplitWalks(first, "", "", 0);
      LastPiece(first);
    } else {
      var back := Join(parts[1..], ",");
      SplitWalks(first, "," + back, "", 0);
      assert first + ("," + back) == Join(parts, ",");
      SplitOfPieces(parts[1..]);
      NextPiece(first, back);
      assert [first] + parts[1..] == parts;
    }
  }

  lemma LastPiece(part: string)
    requires OnePiece(part)
    ensures SplitFrom("", part, 0) == Parsed([part])
  {
  }

  lemma NextPiece(part: string, back: string)
    requires OnePiece(part)
    ensures SplitFrom("," + back, part, 0) == Ahead([part], SplitFrom(back, "", 0))
  {
    assert ("," + back)[1..] == back;
  }

  // What the expression parser makes of a printed requirement.

  lemma LowerConcat(a: string, b: string)
    ensures Lower(a + b) == Lower(a) + Lower(b)
  {
  }

  lemma LowerHasNoSpace(s: string)
    requires ' ' !in s
    ensures ' ' !in Lower(s)
  {
  }

  lemma PlainFacts(s: string)
    requires PlainWord(s)
    ensures s != "" && ' ' !in s && ',' !in s && '(' !in s && ')' !in s && '=' !in s && '!' !in s
    ensures !IsSpace(s[0]) && !IsSpace(s[|s| - 1]) && Trimmed(s)
  {
    assert s[0] in s && s[|s| - 1] in s;
    assert IsSpace(' ');
  }

  lemma LowerTokens()
    ensures Lower(IS_IN) == IS_IN && Lower(NOT_IN) == NOT_IN && Lower(" ") == " "
  {
  }

  /** After the key the operator word is found where it stands. */
  lemma FindsWord(key: string, word: string, tail: string)
    requires ' ' !in key && word != "" && word[0] == ' ' && Lower(word) == word
    ensures IndexOf(Lower(key + (word + tail)), word) == Some(|key|)
  {
    LowerConcat(key, word + tail);
    LowerConcat(word, tail);
    LowerHasNoSpace(key);
    IndexAfter(Lower(key), word + Lower(tail), word);
  }

  /** A text without a blank holds no set operator. */
  lemma NoBlankNoSet(text: string)
    requires ' ' !in text
    ensures ParseSetExpression(text) == NotASet
  {
    LowerHasNoSpace(text);
    NotFound(Lower(text), NOT_IN);
    NotFound(Lower(text), IS_IN);
  }

  /** In "key in (...)" the word " notin" is not found. */
  lemma InIsNotNotIn(key: string, values: string)
    requires ' ' !in key && ' ' !in values && values != "" && values[0] == '('
    ensures IndexOf(Lower(key + (IS_IN + (" " + values))), NOT_IN) == None
  {
    hide IndexOf;
    var tail := Lower(values);
    LowerTokens();
    LowerConcat(key, IS_IN + (" " + values));
    LowerConcat(IS_IN, " " + values);
    LowerConcat(" ", values);
    LowerHasNoSpace(key);
    LowerHasNoSpace(values);
    IndexAfter(Lower(key), IS_IN + (" " + tail), NOT_IN);
    NoSecondWord(tail);
  }

  lemma NoSecondWord(tail: string)
    requires ' ' !in tail && tail != "" && tail[0] == '('
    ensures IndexOf(IS_IN + (" " + tail), NOT_IN) == None
  {
    var b := " " + tail;
    NotFound(tail, NOT_IN);
    assert IndexOf(b, NOT_IN) == None by { BlankThen(tail); }
    IndexAfter("in", b, NOT_IN);
    var a := IS_IN + b;
    assert a[1] == 'i' && NOT_IN[1] == 'n';
    assert a[1..] == "in" + b;
  }

  lemma BlankThen(tail: string)
    requires tail != "" && tail[0] == '(' && IndexOf(tail, NOT_IN) == None
    ensures IndexOf(" " + tail, NOT_IN) == None
  {
    assert (" " + tail)[1..] == tail;
    assert NOT_IN[1] == 'n' && (" " + tail)[1] == '(';
  }

  // Each printed form is read back.

  lemma {:induction false} SetValuesOfPlain(values: seq<string>)
    requires NoRepeats(values) && forall v :: v in values ==> v != "" && Trimmed(v)
    ensures SetValues(values) == Parsed(values)
    decreases |values|
  {
    if values != [] {
      var front, last := values[..|values| - 1], values[|values| - 1];
      assert last in values;
      forall v | v in front ensures v in values { }
      SetValuesOfPlain(front);
      assert front + [last] == values;
    }
  }

  lemma {:induction false} JoinedHas(values: seq<string>, sep: string, c: char)
    requires c !in sep && forall v :: v in values ==> c !in v
    ensures c !in Join(values, sep)
    decreases |values|
  {
    if |values| == 1 {
      assert values[0] in values;
    } else if values != [] {
      assert values[0] in values;
      JoinedHas(values[1..], sep, c);
    }
  }

  /** The value list in parentheses, read back from behind the operator word. */
  lemma ReadsSet(key: string, word: string, values: seq<string>, operator: Operator)
    requires PlainWord(key) && values != [] && NoRepeats(values) && forall v :: v in values ==> PlainWord(v)
    ensures ParseSetAt(key + (word + (" " + RenderValues(values))), |key|, |word|, operator)
         == Parsed(Requirement(key, operator, values))
  {
    hide SplitOn, Join, SetValues, PlainWord, TrimSpace, Trimmed;
    var text := RenderValues(values);
    PlainFacts(key);
    CutText(key, word, " " + text);
    ReadsValues(values);
    TrimBlank(text);
  }

  lemma ReadsValues(values: seq<string>)
    requires values != [] && NoRepeats(values) && forall v :: v in values ==> PlainWord(v)
    ensures var text := RenderValues(values);
            && |text| >= 2 && text[0] == '(' && text[|text| - 1] == ')' && Trimmed(text)
            && SetValues(SplitOn(text[1..|text| - 1], ',')) == Parsed(values)
  {
    hide SplitOn, Join, SetValues, PlainWord, Trimmed;
    ReadsValueList(values);
    forall v | v in values ensures v != "" && Trimmed(v) { PlainFacts(v); }
    SetValuesOfPlain(values);
  }

  lemma ReadsValueList(values: seq<string>)
    requires values != [] && forall v :: v in values ==> PlainWord(v)
    ensures var text := RenderValues(values);
            && |text| >= 2 && text[0] == '(' && text[|text| - 1] == ')' && Trimmed(text)
            && SplitOn(text[1..|text| - 1], ',') == values
  {
    hide SplitOn, Join, PlainWord;
    var inner := Join(values, ",");
    assert ("(" + inner + ")")[1..1 + |inner|] == inner;
    forall v | v in values ensures ',' !in v { PlainFacts(v); }
    SplitOfJoin(values, ',');
  }

  lemma CutText(a: string, b: string, c: string)
    ensures |a| + |b| <= |a + (b + c)|
    ensures (a + (b + c))[..|a|] == a && (a + (b + c))[|a| + |b|..] == c
  {
  }

  lemma TrimBlank(text: string)
    requires text != "" && Trimmed(text)
    ensures TrimSpace(" " + text) == text
  {
    assert (" " + text)[1..] == text;
    assert TrimLeft(" " + text) == TrimLeft(text) == text;
  }

  lemma PrintedSet(r: Requirement)
    requires Printable(r) && (r.operator == In || r.operator == NotIn)
    ensures ParseSetExpression(Render(r)) == SetExpression(Parsed(r))
  {
    hide IndexOf, Join, ParseSetAt, Lower, PlainWord;
    var tail := " " + RenderValues(r.values);
    PlainFacts(r.key);
    LowerTokens();
    forall v | v in r.values ensures ' ' !in v { PlainFacts(v); }
    JoinedHas(r.values, ",", ' ');
    if r.operator == In {
      InIsNotNotIn(r.key, RenderValues(r.values));
      FindsWord(r.key, IS_IN, tail);
      ReadsSet(r.key, IS_IN, r.values, In);
    } else {
      FindsWord(r.key, NOT_IN, tail);
      ReadsSet(r.key, NOT_IN, r.values, NotIn);
    }
  }

  lemma ReadsBinary(key: string, sign: string, value: string, operator: Operator)
    requires PlainWord(key) && PlainWord(value)
    ensures ParseBinary(key + (sign + value), |key|, |sign|, operator) == Parsed(Requirement(key, operator, [value]))
  {
    hide TrimSpace, PlainWord;
    PlainFacts(key);
    PlainFacts(value);
    CutText(key, sign, value);
  }

  lemma FindsSign(key: string, sign: string, value: string)
    requires PlainWord(key) && sign != "" && (sign[0] == '=' || sign[0] == '!')
    ensures IndexOf(key + (sign + value), sign) == Some(|key|)
  {
    PlainFacts(key);
    IndexAfter(key, sign + value, sign);
  }

  /** A single equals sign before a plain value is not taken for a double one, nor for a negation. */
  lemma SingleSign(key: string, value: string)
    requires PlainWord(key) && PlainWord(value)
    ensures IndexOf(key + ("=" + value), "==") == None && IndexOf(key + ("=" + value), "!=") == None
  {
    PlainFacts(key);
    PlainFacts(value);
    NotFound(value, "==");
    var b := "=" + value;
    assert b[1..] == value && b[1] != '=' by { assert value[0] in value; }
    assert IndexOf(b, "==") == None;
    IndexAfter(key, b, "==");
    NotFound(key + b, "!=");
  }

  lemma PrintedComparison(r: Requirement)
    requires Printable(r) && r.operator != In && r.operator != NotIn
    ensures Render(r) != "" && Trimmed(Render(r)) && ' ' !in Render(r)
    ensures ParseComparison(Render(r)) == Parsed(r)
  {
    hide IndexOf, TrimSpace, PlainWord;
    PlainFacts(r.key);
    match r.operator
    case Exists =>
      NotFound(r.key, "!=");
      NotFound(r.key, "==");
      NotFound(r.key, "=");
    case NotExists => PrintedNotExists(r.key);
    case Equals =>
      assert r.values[0] in r.values && r.values == [r.values[0]];
      PrintedEquals(r.key, r.values[0]);
    case NotEquals =>
      assert r.values[0] in r.values && r.values == [r.values[0]];
      PrintedNotEquals(r.key, r.values[0]);
  }

  lemma PrintedEquals(key: string, value: string)
    requires PlainWord(key) && PlainWord(value)
    ensures var text := key + ("=" + value);
            text != "" && Trimmed(text) && ' ' !in text
            && ParseComparison(text) == Parsed(Requirement(key, Equals, [value]))
  {
    hide IndexOf, TrimSpace, PlainWord, ParseBinary;
    PlainFacts(key);
    PlainFacts(value);
    SingleSign(key, value);
    FindsSign(key, "=", value);
    ReadsBinary(key, "=", value, Equals);
  }

  lemma PrintedNotEquals(key: string, value: string)
    requires PlainWord(key) && PlainWord(value)
    ensures var text := key + ("!=" + value);
            text != "" && Trimmed(text) && ' ' !in text
            && ParseComparison(text) == Parsed(Requirement(key, NotEquals, [value]))
  {
    hide IndexOf, TrimSpace, PlainWord, ParseBinary;
    PlainFacts(key);
    PlainFacts(value);
    FindsSign(key, "!=", value);
    ReadsBinary(key, "!=", value, NotEquals);
  }

  lemma PrintedNotExists(key: string)
    requires PlainWord(key)
    ensures var text := "!" + key;
            IndexOf(text, "!=") == None && IndexOf(text, "==") == None && IndexOf(text, "=") == None
            && text[1..] == key && TrimSpace(key) == key
  {
    var text := "!" + key;
    PlainFacts(key);
    assert key[0] in key;
    NotFound(key, "!=");
    NotFound(text, "==");
    NotFound(text, "=");
    assert text[1..] == key;
    assert text[1] != '=';
  }

  lemma PrintedIsRead(r: Requirement)
    requires Printable(r)
    ensures OnePiece(Render(r)) && ParseExpression(Render(r)) == Parsed(r)
  {
    hide IndexOf, TrimSpace, PlainWord, ParseComparison, ParseSetExpression, Walk;
    PrintedIsOnePiece(r);
    if r.operator == In || r.operator == NotIn {
      PrintedSet(r);
    } else {
      PrintedComparison(r);
      NoBlankNoSet(Render(r));
    }
  }

  // What each operator answers, from the text of the expression to the labels.

  /** The characters a plain word may have. */
  lemma PlainWordExactly(s: string)
    ensures PlainWord(s) <==>
              s != "" && forall c :: c in s ==> c < '\U{80}' && c !in " \t\n\r\U{0B}\U{0C}" && c !in ",()=!"
  {
    forall c | c in s ensures PlainChar(c) <==> c < '\U{80}' && c !in " \t\n\r\U{0B}\U{0C}" && c !in ",()=!" {
      SpacesListed(c);
      assert c in ",()=!" <==> c == ',' || c == '(' || c == ')' || c == '=' || c == '!' by { SignsListed(c); }
    }
  }

  lemma SignsListed(c: char)
    ensures c in ",()=!" <==> c == ',' || c == '(' || c == ')' || c == '=' || c == '!'
  {
    var signs := ",()=!";
    assert signs[0] == ',' && signs[1] == '(' && signs[2] == ')' && signs[3] == '=' && signs[4] == '!';
  }

  lemma WordMeans(labels: map<string, string>, key: string)
    requires PlainWord(key)
    ensures var p := ParseExpression(key);
            p.Parsed? && WellFormed(p.value) && (Matches(labels, p.value) <==> key in labels)
    ensures var p := ParseExpression("!" + key);
            p.Parsed? && WellFormed(p.value) && (Matches(labels, p.value) <==> key !in labels)
  {
    hide IndexOf, TrimSpace, PlainWord, ParseComparison, ParseSetExpression, Walk, ParseExpression, OnePiece, Trimmed;
    WordIsWellFormed(key);
    PrintedIsRead(Requirement(key, Exists, []));
    PrintedIsRead(Requirement(key, NotExists, []));
  }

  lemma WordIsWellFormed(key: string)
    requires PlainWord(key)
    ensures key != "" && Trimmed(key)
  {
    PlainFacts(key);
  }

  lemma ComparisonMeans(labels: map<string, string>, key: string, value: string)
    requires PlainWord(key) && PlainWord(value)
    ensures var p := ParseExpression(key + ("=" + value));
            p.Parsed? && WellFormed(p.value) && (Matches(labels, p.value) <==> key in labels && labels[key] == value)
    ensures ParseExpression(key + ("==" + value)) == ParseExpression(key + ("=" + value))
    ensures var p := ParseExpression(key + ("!=" + value));
            p.Parsed? && WellFormed(p.value) && (Matches(labels, p.value) <==> key in labels ==> labels[key] != value)
  {
    hide IndexOf, TrimSpace, PlainWord, ParseComparison, ParseSetExpression, Walk, ParseExpression, OnePiece, Trimmed;
    WordIsWellFormed(key);
    WordIsWellFormed(value);
    PrintedIsRead(Requirement(key, Equals, [value]));
    PrintedIsRead(Requirement(key, NotEquals, [value]));
    DoubleSign(key, value);
  }

  /** The other spelling of equality. */
  lemma DoubleSign(key: string, value: string)
    requires PlainWord(key) && PlainWord(value)
    ensures ParseExpression(key + ("==" + value)) == Parsed(Requirement(key, Equals, [value]))
  {
    hide IndexOf, TrimSpace, PlainWord, ParseBinary;
    var text := key + ("==" + value);
    PlainFacts(key);
    PlainFacts(value);
    assert '!' !in text && ' ' !in text;
    NotFound(text, "!=");
    FindsSign(key, "==", value);
    ReadsBinary(key, "==", value, Equals);
    NoBlankNoSet(text);
    assert text[0] == key[0] && text[|text| - 1] == value[|value| - 1];
  }

  /** Lists of values, the operator word in any letter case. */
  lemma SetMeans(labels: map<string, string>, key: string, word: string, values: seq<string>, negated: bool)
    requires PlainWord(key) && values != [] && forall v :: v in values ==> PlainWord(v)
    requires var spelled := if negated then " notin" else " in";
             |word| == |spelled|
             && forall i :: 0 <= i < |word| ==>
                  word[i] == spelled[i] || (i > 0 && word[i] as int + 32 == spelled[i] as int)
    ensures var p := ParseExpression(key + (word + (" " + ("(" + Join(values, ",") + ")"))));
            && p.Parsed? && WellFormed(p.value)
            && (Matches(labels, p.value) <==>
                  if negated then key in labels ==> labels[key] !in values else key in labels && labels[key] in values)
  {
    hide IndexOf, TrimSpace, PlainWord, Join, Lower, ParseSetAt, Trimmed, SetValues;
    var spelled, operator := if negated then NOT_IN else IS_IN, if negated then NotIn else In;
    var tail := " " + RenderValues(values);
    var text := key + (word + tail);
    AnyCase(word, spelled);
    LowerConcat(key, word + tail);
    LowerConcat(word, tail);
    LowerConcat(key, spelled + tail);
    LowerConcat(spelled, tail);
    LowerTokens();
    PlainFacts(key);
    FindsWord(key, spelled, tail);
    if !negated {
      forall v | v in values ensures ' ' !in v { PlainFacts(v); }
      JoinedHas(values, ",", ' ');
      InIsNotNotIn(key, RenderValues(values));
    }
    ReadsAnySet(key, word, values, operator);
    SetTextIsTrimmed(key, word + (" " + ("(" + Join(values, ","))));
    assert text == key + (word + (" " + ("(" + Join(values, ",")))) + ")";
    assert ParseExpression(text) == ParseSetAt(text, |key|, |word|, operator);
  }

  lemma AnyCase(word: string, spelled: string)
    requires spelled == NOT_IN || spelled == IS_IN
    requires |word| == |spelled|
    requires forall i :: 0 <= i < |word| ==>
               word[i] == spelled[i] || (i > 0 && word[i] as int + 32 == spelled[i] as int)
    ensures Lower(word) == Lower(spelled)
  {
    forall i | 0 <= i < |word| ensures LowerChar(word[i]) == LowerChar(spelled[i]) {
      assert i > 0 ==> 'a' <= spelled[i] <= 'z';
    }
  }

  lemma SetTextIsTrimmed(key: string, middle: string)
    requires PlainWord(key)
    ensures var text := key + middle + ")"; text != "" && Trimmed(text) && TrimSpace(text) == text
  {
    hide TrimSpace;
    PlainFacts(key);
    var text := key + middle + ")";
    assert text[0] == key[0] && text[|text| - 1] == ')';
  }

  lemma ReadsAnySet(key: string, word: string, values: seq<string>, operator: Operator)
    requires PlainWord(key) && values != [] && forall v :: v in values ==> PlainWord(v)
    requires operator == In || operator == NotIn
    ensures var p := ParseSetAt(key + (word + (" " + RenderValues(values))), |key|, |word|, operator);
            && p.Parsed? && p.value.key == key && p.value.operator == operator && WellFormed(p.value)
            && forall v :: v in p.value.values <==> v in values
  {
    hide SplitOn, Join, SetValues, PlainWord, TrimSpace, Trimmed;
    var text := RenderValues(values);
    PlainFacts(key);
    CutText(key, word, " " + text);
    ReadsValueList(values);
    forall v | v in values ensures v != "" && Trimmed(v) { PlainFacts(v); }
    SetValuesMembers(values);
    SetValuesShape(values);
    TrimBlank(text);
    assert TrimSpace(key) == key && values[0] in values;
  }

  /** Of repeated values one stays. */
  lemma {:induction false} SetValuesMembers(values: seq<string>)
    requires forall v :: v in values ==> v != "" && Trimmed(v)
    ensures SetValues(values).Parsed? && forall v :: v in SetValues(values).value <==> v in values
    decreases |values|
  {
    if values != [] {
      var front, last := values[..|values| - 1], values[|values| - 1];
      assert last in values && values == front + [last] && forall v :: v in front ==> v in values;
      SetValuesMembers(front);
    }
  }

  lemma PrintedIsOnePiece(r: Requirement)
    requires Printable(r)
    ensures OnePiece(Render(r))
  {
    hide TrimSpace, PlainWord, Walk, Join;
    PlainFacts(r.key);
    WalkPlain(r.key, 0);
    if r.operator == In || r.operator == NotIn {
      var word := if r.operator == In then IS_IN else NOT_IN;
      WalkPlain(word, 0);
      WalkPlain(" ", 0);
      ListIsOnePiece(r.values);
      WalkConcat(" ", RenderValues(r.values), 0);
      WalkConcat(word, " " + RenderValues(r.values), 0);
      WalkConcat(r.key, word + (" " + RenderValues(r.values)), 0);
    } else {
      PrintedComparison(r);
      ComparisonHasNoBrackets(r);
      WalkPlain(Render(r), 0);
    }
  }

  lemma ListIsOnePiece(values: seq<string>)
    requires forall v :: v in values ==> PlainWord(v)
    ensures Walk(RenderValues(values), 0) == Some(0)
  {
    hide PlainWord, Join;
    var inner := Join(values, ",");
    forall v | v in values ensures '(' !in v && ')' !in v { PlainFacts(v); }
    JoinedHas(values, ",", '(');
    JoinedHas(values, ",", ')');
    WalkPlain(inner, 1);
    WalkConcat(inner, ")", 1);
    var text := "(" + (inner + ")");
    assert text[1..] == inner + ")" && text == RenderValues(values);
    assert Walk(")", 1) == Some(0) by { assert ")"[1..] == ""; }
  }

  lemma ComparisonHasNoBrackets(r: Requirement)
    requires Printable(r) && r.operator != In && r.operator != NotIn
    ensures '(' !in Render(r) && ')' !in Render(r) && ',' !in Render(r)
  {
    hide PlainWord;
    PlainFacts(r.key);
    if r.operator == Equals || r.operator == NotEquals {
      assert r.values[0] in r.values;
      PlainFacts(r.values[0]);
    }
  }

  /** Every non-empty list of printable requirements, written in the documented syntax and joined by
      commas, is read back as it was. */
  lemma SelectorRoundTrip(selector: seq<Requirement>)
    requires selector != [] && forall r :: r in selector ==> Printable(r)
    ensures AllWellFormed(selector)
    ensures ParseItem(Join(RenderEach(selector), ",")) == Parsed(selector)
  {
    hide SplitFrom, Walk, TrimSpace, Trimmed;
    EachIsRead(selector);
    var parts := RenderEach(selector);
    SplitOfPieces(parts);
    JoinedIsTrimmed(parts);
  }

  /** Another parameter adds its requirements behind those of the ones before it. */
  lemma ParametersAreJoined(items: seq<string>, front: seq<Requirement>, selector: seq<Requirement>)
    requires ParseItems(items) == Parsed(front)
    requires selector != [] && forall r :: r in selector ==> Printable(r)
    ensures AllWellFormed(selector)
    ensures ParseItems([]) == Parsed([])
    ensures ParseItems(items + [Join(RenderEach(selector), ",")]) == Parsed(front + selector)
  {
    hide ParseItem, Join, RenderEach, Printable;
    SelectorRoundTrip(selector);
    var text := Join(RenderEach(selector), ",");
    assert (items + [text])[..|items|] == items;
  }

  lemma {:induction false} EachIsRead(selector: seq<Requirement>)
    requires forall r :: r in selector ==> Printable(r)
    ensures AllWellFormed(selector) && |RenderEach(selector)| == |selector|
    ensures forall part :: part in RenderEach(selector) ==> OnePiece(part)
    ensures ParseEach(RenderEach(selector)) == Parsed(selector)
    decreases |selector|
  {
    hide ParseExpression, OnePiece, Render;
    if selector != [] {
      var front, last := selector[..|selector| - 1], selector[|selector| - 1];
      assert last in selector && front + [last] == selector;
      EachIsRead(front);
      PrintedIsRead(last);
      assert RenderEach(selector)[..|front|] == RenderEach(front);
    }
  }

  lemma {:induction false} JoinedIsTrimmed(parts: seq<string>)
    requires parts != [] && forall part :: part in parts ==> OnePiece(part)
    ensures Join(parts, ",") != "" && Trimmed(Join(parts, ","))
    decreases |parts|
  {
    hide Walk;
    assert parts[0] in parts;
    if |parts| > 1 {
      JoinedIsTrimmed(parts[1..]);
    }
  }
}

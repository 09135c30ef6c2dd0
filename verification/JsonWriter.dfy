/**
 A streaming JSON writer that only tracks whether the next item needs a comma.

 Text is a list of tokens: rendering a string or a number as characters is left to the
 serialization library. `Print` is the text of a tree, `Parse` reads the object grammar of
 section 4 of RFC 8259 back, and the two are inverse to each other.
 */
module JsonWriting {
  import opened Basics

  type Number(==, !new)

  datatype F64 = Finite(number: Number) | Infinite | NaN

  datatype Token = BeginObject | EndObject | NameSeparator | ValueSeparator
                 | StringToken(s: string) | NumberToken(number: Number)

  datatype Value = Text(s: string) | Numeric(number: F64) | Object(members: seq<Member>)

  datatype Member = Member(key: string, value: Value)

  /** Every number of the tree is finite. */
  predicate AllFinite(v: Value)
    decreases v
  {
    match v
    case Text(_) => true
    case Numeric(x) => x.Finite?
    case Object(ms) => MembersFinite(ms)
  }

  predicate MembersFinite(ms: seq<Member>)
    decreases ms
  {
    ms == [] || (AllFinite(ms[0].value) && MembersFinite(ms[1..]))
  }

  /** The text of a value, followed by `rest`. */
  function Print(v: Value, rest: seq<Token>): (ts: seq<Token>)
    requires AllFinite(v)
    decreases v
  {
    match v
    case Text(s) => [StringToken(s)] + rest
    case Numeric(x) => [NumberToken(x.number)] + rest
    case Object(ms) => [BeginObject] + PrintMembers(ms, false, [EndObject] + rest)
  }

  /** The members followed by `rest`, with a comma before each one but the first, if not there too. */
  function PrintMembers(ms: seq<Member>, separate: bool, rest: seq<Token>): seq<Token>
    requires MembersFinite(ms)
    decreases ms
  {
    if ms == [] then rest
    else Separator(separate) + [StringToken(ms[0].key), NameSeparator]
         + Print(ms[0].value, PrintMembers(ms[1..], true, rest))
  }

  function Separator(needed: bool): seq<Token> {
    if needed then [ValueSeparator] else []
  }

  // ---------------------------------------------------------------- the grammar, read back

  /** value = object / number / string; what is left of the text follows the value. */
  function Parse(ts: seq<Token>): (r: Option<(Value, seq<Token>)>)
    ensures r.Some? ==> |r.value.1| < |ts|
    decreases |ts|
  {
    if ts == [] then None
    else match ts[0]
      case StringToken(s) => Some((Text(s), ts[1..]))
      case NumberToken(n) => Some((Numeric(Finite(n)), ts[1..]))
      case BeginObject =>
        if |ts| > 1 && ts[1] == EndObject then Some((Object([]), ts[2..]))
        else
          var r := ParseMembers(ts[1..]);
          if r.None? then None else Some((Object(r.value.0), r.value.1))
      case EndObject => None
      case NameSeparator => None
      case ValueSeparator => None
  }

  /** member *( value-separator member ) end-object, where member = string name-separator value */
  function ParseMembers(ts: seq<Token>): (r: Option<(seq<Member>, seq<Token>)>)
    ensures r.Some? ==> |r.value.1| < |ts| && r.value.0 != []
    decreases |ts|
  {
    if |ts| < 2 || !ts[0].StringToken? || ts[1] != NameSeparator then None
    else
      var v := Parse(ts[2..]);
      if v.None? || v.value.1 == [] then None
      else
        var m, rest := Member(ts[0].s, v.value.0), v.value.1;
        if rest[0] == EndObject then Some(([m], rest[1..]))
        else if rest[0] != ValueSeparator then None
        else
          var r := ParseMembers(rest[1..]);
          if r.None? then None else Some(([m] + r.value.0, r.value.1))
  }

  /** Reading back the text of a tree gives the tree and leaves what follows it. */
  lemma {:induction false} ParseOfPrint(v: Value, rest: seq<Token>)
    requires AllFinite(v)
    ensures Parse(Print(v, rest)) == Some((v, rest))
    decreases v
  {
    match v
    case Text(_) =>
    case Numeric(_) =>
    case Object(ms) =>
      var ts := Print(v, rest);
      if ms == [] {
        assert ts[1] == EndObject && ts[2..] == rest;
      } else {
        assert ts[1] == StringToken(ms[0].key);
        assert ts[1..] == PrintMembers(ms, false, [EndObject] + rest);
        ParseMembersOfPrint(ms, rest);
      }
  }

  lemma {:induction false} ParseMembersOfPrint(ms: seq<Member>, rest: seq<Token>)
    requires ms != [] && MembersFinite(ms)
    ensures ParseMembers(PrintMembers(ms, false, [EndObject] + rest)) == Some((ms, rest))
    decreases ms
  {
    var end := [EndObject] + rest;
    var after := PrintMembers(ms[1..], true, end);
    MembersStart(ms, end);
    ParseOfPrint(ms[0].value, after);
    if |ms| > 1 {
      MembersSeparated(ms[1..], end);
      ParseMembersOfPrint(ms[1..], rest);
      assert ms == [ms[0]] + ms[1..];
    } else {
      assert after == end && after[0] == EndObject && after[1..] == rest;
      assert ms == [ms[0]];
    }
    assert Member(ms[0].key, ms[0].value) == ms[0];
  }

  lemma MembersStart(ms: seq<Member>, rest: seq<Token>)
    requires ms != [] && MembersFinite(ms)
    ensures var ts := PrintMembers(ms, false, rest);
            && |ts| >= 2 && ts[0] == StringToken(ms[0].key) && ts[1] == NameSeparator
            && ts[2..] == Print(ms[0].value, PrintMembers(ms[1..], true, rest))
  {}

  lemma MembersSeparated(ms: seq<Member>, rest: seq<Token>)
    requires ms != [] && MembersFinite(ms)
    ensures var ts := PrintMembers(ms, true, rest);
            ts != [] && ts[0] == ValueSeparator && ts[1..] == PrintMembers(ms, false, rest)
  {}

  /** Whatever the grammar accepts is the text of the tree it reads. */
  lemma {:induction false} PrintOfParse(ts: seq<Token>)
    requires Parse(ts).Some?
    ensures var (v, rest) := Parse(ts).value; AllFinite(v) && ts == Print(v, rest)
    decreases |ts|
  {
    if ts[0] == BeginObject && !(|ts| > 1 && ts[1] == EndObject) {
      PrintOfParseMembers(ts[1..]);
    }
  }

  lemma {:induction false} PrintOfParseMembers(ts: seq<Token>)
    requires ParseMembers(ts).Some?
    ensures var (ms, rest) := ParseMembers(ts).value;
            MembersFinite(ms) && ts == PrintMembers(ms, false, [EndObject] + rest)
    decreases |ts|
  {
    PrintOfParse(ts[2..]);
    var (v, rest) := Parse(ts[2..]).value;
    var m := Member(ts[0].s, v);
    if rest[0] == ValueSeparator {
      PrintOfParseMembers(rest[1..]);
      var (more, end) := ParseMembers(rest[1..]).value;
      MembersSeparated(more, [EndObject] + end);
      assert rest == PrintMembers(more, true, [EndObject] + end);
      PrintOfMember(ts, m, more, rest, end);
      assert ParseMembers(ts).value == ([m] + more, end);
    } else {
      assert rest == [EndObject] + rest[1..];
      PrintOfMember(ts, m, [], rest, rest[1..]);
      assert [m] + [] == [m];
      assert ParseMembers(ts).value == ([m], rest[1..]);
    }
  }

  lemma PrintOfMember(ts: seq<Token>, m: Member, more: seq<Member>, rest: seq<Token>, end: seq<Token>)
    requires AllFinite(m.value) && MembersFinite(more)
    requires |ts| >= 2 && ts[0] == StringToken(m.key) && ts[1] == NameSeparator && ts[2..] == Print(m.value, rest)
    requires rest == PrintMembers(more, true, [EndObject] + end)
    ensures MembersFinite([m] + more) && ts == PrintMembers([m] + more, false, [EndObject] + end)
  {
    var ms := [m] + more;
    assert ms[1..] == more;
    assert ts == [ts[0], ts[1]] + ts[2..];
  }

  /** Two different trees never give the same text, nor is one's text a prefix of the other's. */
  lemma PrintIsPrefixFree(a: Value, b: Value, x: seq<Token>, y: seq<Token>)
    requires AllFinite(a) && AllFinite(b) && Print(a, x) == Print(b, y)
    ensures a == b && x == y
  {
    ParseOfPrint(a, x);
    ParseOfPrint(b, y);
  }

  lemma {:induction false} PrintAppend(v: Value, a: seq<Token>, b: seq<Token>)
    requires AllFinite(v)
    ensures Print(v, a) + b == Print(v, a + b)
    decreases v
  {
    if v.Object? {
      PrintMembersAppend(v.members, false, [EndObject] + a, b);
      assert [EndObject] + a + b == [EndObject] + (a + b);
    }
  }

  lemma {:induction false} PrintMembersAppend(ms: seq<Member>, separate: bool, a: seq<Token>, b: seq<Token>)
    requires MembersFinite(ms)
    ensures PrintMembers(ms, separate, a) + b == PrintMembers(ms, separate, a + b)
    decreases ms
  {
    if ms != [] {
      PrintMembersAppend(ms[1..], true, a, b);
      PrintAppend(ms[0].value, PrintMembers(ms[1..], true, a), b);
    }
  }

  lemma MemberThenMembers(before: seq<Token>, ms: seq<Member>, separate: bool)
    requires ms != [] && MembersFinite(ms)
    ensures before + Separator(separate) + [StringToken(ms[0].key), NameSeparator] + Print(ms[0].value, [])
            + PrintMembers(ms[1..], true, [])
            == before + PrintMembers(ms, separate, [])
  {
    var more := PrintMembers(ms[1..], true, []);
    PrintAppend(ms[0].value, [], more);
    assert [] + more == more;
    Regroup(before, Separator(separate), [StringToken(ms[0].key), NameSeparator], Print(ms[0].value, []), more);
  }

  lemma Regroup(a: seq<Token>, b: seq<Token>, c: seq<Token>, d: seq<Token>, e: seq<Token>)
    ensures a + b + c + d + e == a + (b + c + (d + e))
  {}

  // ---------------------------------------------------------------- the writer

  datatype WriteResult = Written | InvalidF64Value(value: F64)

  class JsonWriter {
    var buffer: seq<Token>
    var needsSeparator: bool

    constructor ()
      ensures buffer == [] && !needsSeparator
    {
      buffer, needsSeparator := [], false;
    }

    method MaybeSeparate()
      modifies this
      ensures buffer == old(buffer) + Separator(old(needsSeparator)) && !needsSeparator
    {
      if needsSeparator {
        buffer := buffer + [ValueSeparator];
        needsSeparator := false;
      }
    }

    method WriteKey(key: string)
      modifies this
      ensures buffer == old(buffer) + Separator(old(needsSeparator)) + [StringToken(key), NameSeparator]
      ensures !needsSeparator
    {
      MaybeSeparate();
      buffer := buffer + [StringToken(key)];
      buffer := buffer + [NameSeparator];
      needsSeparator := false;
    }

    method WriteStr(s: string)
      modifies this
      ensures buffer == old(buffer) + Separator(old(needsSeparator)) + [StringToken(s)]
      ensures needsSeparator
    {
      MaybeSeparate();
      buffer := buffer + [StringToken(s)];
      needsSeparator := true;
    }

    /** A value that is not finite is refused, but only after the comma is written. */
    method WriteF64(value: F64) returns (r: WriteResult)
      modifies this
      ensures r.Written? <==> value.Finite?
      ensures r.InvalidF64Value? ==> r.value == value
      ensures var separated := old(buffer) + Separator(old(needsSeparator));
              buffer == if value.Finite? then separated + [NumberToken(value.number)] else separated
      ensures needsSeparator == value.Finite?
    {
      MaybeSeparate();
      match value
      case Finite(number) =>
        buffer := buffer + [NumberToken(number)];
        needsSeparator := true;
        r := Written;
      case Infinite => r := InvalidF64Value(value);
      case NaN => r := InvalidF64Value(value);
    }

    method WriteOpenObj()
      modifies this
      ensures buffer == old(buffer) + Separator(old(needsSeparator)) + [BeginObject]
      ensures !needsSeparator
    {
      MaybeSeparate();
      buffer := buffer + [BeginObject];
    }

    method WriteCloseObj()
      modifies this
      ensures buffer == old(buffer) + [EndObject] && needsSeparator
    {
      buffer := buffer + [EndObject];
      needsSeparator := true;
    }

    /** Writes a whole tree; it fails at the first number that is not finite. */
    method WriteValue(v: Value) returns (r: WriteResult)
      modifies this
      ensures r.Written? <==> AllFinite(v)
      ensures AllFinite(v) ==>
                && buffer == old(buffer) + Separator(old(needsSeparator)) + Print(v, [])
                && needsSeparator
      decreases v
    {
      match v
      case Text(s) =>
        WriteStr(s);
        r := Written;
      case Numeric(x) =>
        r := WriteF64(x);
      case Object(ms) =>
        WriteOpenObj();
        r := WriteMembers(ms);
        if r.Written? {
          WriteCloseObj();
          PrintMembersAppend(ms, false, [], [EndObject]);
          assert [] + [EndObject] == [EndObject] + [];
          calc {
            buffer;
            old(buffer) + Separator(old(needsSeparator)) + [BeginObject] + PrintMembers(ms, false, []) + [EndObject];
            old(buffer) + Separator(old(needsSeparator)) + ([BeginObject] + (PrintMembers(ms, false, []) + [EndObject]));
            old(buffer) + Separator(old(needsSeparator)) + Print(v, []);
          }
        }
    }

    method WriteMembers(ms: seq<Member>) returns (r: WriteResult)
      modifies this
      ensures r.Written? <==> MembersFinite(ms)
      ensures MembersFinite(ms) ==> buffer == old(buffer) + PrintMembers(ms, old(needsSeparator), [])
      ensures ms == [] ==> needsSeparator == old(needsSeparator)
      ensures MembersFinite(ms) && ms != [] ==> needsSeparator
      decreases ms
    {
      if ms == [] {
        return Written;
      }
      WriteKey(ms[0].key);
      r := WriteValue(ms[0].value);
      if r.Written? {
        assert buffer == old(buffer) + Separator(old(needsSeparator)) + [StringToken(ms[0].key), NameSeparator]
                         + Print(ms[0].value, []);
        r := WriteMembers(ms[1..]);
        if r.Written? {
          MemberThenMembers(old(buffer), ms, old(needsSeparator));
        }
      }
    }
  }
}

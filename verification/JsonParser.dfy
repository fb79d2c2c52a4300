/** The JSON parser, which holds one token ahead of the text left to read. */
module JsonParser {
  import opened InsertionOrder
  import opened JsonTokenizer
  import opened JsonValues
  import opened Results

  /** A value, the token held after it, and the text after that token. */
  datatype Parsed<+T> = Parsed(value: T, token: Token, rest: string)

  type Parse<+T> = Result<Parsed<T>, ReadError>

  /** A finished value: the parser goes on to hold the next token. */
  function Finish<T>(value: T, rest: string): (r: Parse<T>)
    ensures r.Ok? ==> r.value.value == value && Cost(r.value.token, r.value.rest) <= |rest|
  {
    var next :- NextToken(rest);
    Ok(Parsed(value, next.value, next.rest))
  }

  function ValueFrom(token: Token, rest: string): (r: Parse<Json>)
    ensures r.Ok? ==> Cost(r.value.token, r.value.rest) < Cost(token, rest)
    decreases Cost(token, rest), 1
  {
    match token
    case NumberToken(n) => Finish(Num(n), rest)
    case StringToken(s) => Finish(Str(s), rest)
    case False => Finish(Bool(false), rest)
    case True => Finish(Bool(true), rest)
    case Nil => Finish(Null, rest)
    case BrackL =>
      var next :- NextToken(rest);
      ElementsFrom(next.value, next.rest, [])
    case BraceL =>
      var next :- NextToken(rest);
      MembersFrom(next.value, next.rest, [])
    case _ => Err(BadValue)
  }

  /** What follows an element or entry: a comma, which is passed over, or the closing token. */
  function Separated<T>(parsed: Parsed<T>, close: Token, error: ReadError): (r: Parse<T>)
    ensures r.Ok? ==> r.value.value == parsed.value
    ensures r.Ok? ==> Cost(r.value.token, r.value.rest) <= Cost(parsed.token, parsed.rest)
  {
    if parsed.token == Comma then Finish(parsed.value, parsed.rest)
    else if parsed.token != close then Err(error)
    else Ok(parsed)
  }

  /** The rest of an array after the elements in `read`; a comma may stand before the closing bracket. */
  function ElementsFrom(token: Token, rest: string, read: seq<Json>): (r: Parse<Json>)
    ensures r.Ok? ==> Cost(r.value.token, r.value.rest) < Cost(token, rest)
    decreases Cost(token, rest), 2
  {
    if token == EOF then Err(BadArray)
    else if token == BrackR then Finish(Arr(read), rest)
    else
      var value :- ValueFrom(token, rest);
      var element :- Separated(value, BrackR, BadArray);
      ElementsFrom(element.token, element.rest, read + [element.value])
  }

  /** One entry: a string, a colon and a value. */
  function MemberFrom(token: Token, rest: string): (r: Parse<Member>)
    ensures r.Ok? ==> Cost(r.value.token, r.value.rest) < Cost(token, rest)
    decreases Cost(token, rest), 2
  {
    if !token.StringToken? then Err(BadObject)
    else
      var colon :- NextToken(rest);
      if colon.value != Colon then Err(BadObject)
      else
        var first :- NextToken(colon.rest);
        var value :- ValueFrom(first.value, first.rest);
        Ok(Parsed(Member(token.s, value.value), value.token, value.rest))
  }

  /** The rest of an object after the entries in `read`. */
  function MembersFrom(token: Token, rest: string, read: seq<Member>): (r: Parse<Json>)
    ensures r.Ok? ==> Cost(r.value.token, r.value.rest) < Cost(token, rest)
    decreases Cost(token, rest), 3
  {
    if token == EOF then Err(BadObject)
    else if token == BraceR then Finish(Obj(read), rest)
    else
      var entry :- MemberFrom(token, rest);
      var member :- Separated(entry, BraceR, BadObject);
      MembersFrom(member.token, member.rest, Put(read, member.value.key, member.value.value))
  }

  /** `OrderedJSONObject.parse`: the object a text starts with. */
  function ParseText(text: string): Result<Json, ReadError> {
    var first :- NextToken(text);
    if first.value != BraceL then Err(BadObject)
    else
      var parsed :- ValueFrom(first.value, first.rest);
      Ok(parsed.value)
  }

  /** One round of the object loop. */
  lemma MembersRound(token: Token, rest: string, read: seq<Member>)
    ensures token == EOF ==> MembersFrom(token, rest, read) == Err(BadObject)
    ensures token == BraceR ==> MembersFrom(token, rest, read) == Finish(Obj(read), rest)
    ensures token != EOF && token != BraceR ==>
              MembersFrom(token, rest, read) == MembersAfter(MemberFrom(token, rest), read)
  {
    hide MemberFrom, Separated, Finish, Put;
  }

  ghost function MembersAfter(entry: Parse<Member>, read: seq<Member>): Parse<Json> {
    if entry.Err? then Err(entry.error)
    else
      var member := Separated(entry.value, BraceR, BadObject);
      if member.Err? then Err(member.error)
      else MembersFrom(member.value.token, member.value.rest, Put(read, member.value.value.key, member.value.value.value))
  }

  /** One round of the array loop. */
  lemma ElementsRound(token: Token, rest: string, read: seq<Json>)
    ensures token == EOF ==> ElementsFrom(token, rest, read) == Err(BadArray)
    ensures token == BrackR ==> ElementsFrom(token, rest, read) == Finish(Arr(read), rest)
    ensures token != EOF && token != BrackR ==>
              ElementsFrom(token, rest, read) == ElementsAfter(ValueFrom(token, rest), read)
  {
    hide ValueFrom, Separated, Finish;
  }

  ghost function ElementsAfter(value: Parse<Json>, read: seq<Json>): Parse<Json> {
    if value.Err? then Err(value.error)
    else
      var element := Separated(value.value, BrackR, BadArray);
      if element.Err? then Err(element.error)
      else ElementsFrom(element.value.token, element.value.rest, read + [element.value.value])
  }

  class Parser {
    const tokenizer: Tokenizer
    var lastToken: Token

    ghost predicate Valid()
      reads this, tokenizer
    {
      tokenizer.Valid()
    }

    constructor (text: string)
      ensures Valid() && fresh(tokenizer) && tokenizer.Rest() == text
    {
      tokenizer := new Tokenizer(text);
      lastToken := EOF;
    }

    ghost function Left(): nat
      requires Valid()
      reads this, tokenizer
    {
      Cost(lastToken, tokenizer.Rest())
    }

    /** The outcome `r` and the state reached are those of a parse. */
    ghost predicate Follows<T>(r: Result<T, ReadError>, parse: Parse<T>)
      requires Valid()
      reads this, tokenizer
    {
      match r
      case Ok(value) => parse == Ok(Parsed(value, lastToken, tokenizer.Rest()))
      case Err(error) => parse == Err(error)
    }

    /** `lastToken = tokenizer.next()`. */
    method Hold() returns (r: Result<(), ReadError>)
      requires Valid()
      modifies this, tokenizer
      ensures Valid() && Follows(r, Finish((), old(tokenizer.Rest())))
    {
      var token :- tokenizer.Next();
      lastToken := token;
      return Ok(());
    }

    method Parse() returns (r: Result<Json, ReadError>)
      requires Valid()
      modifies this, tokenizer
      ensures Valid() && r == ParseText(old(tokenizer.Rest()))
    {
      var _ :- Hold();
      r := ParseObject();
    }

    method ParseValue() returns (r: Result<Json, ReadError>)
      requires Valid()
      modifies this, tokenizer
      ensures Valid() && Follows(r, ValueFrom(old(lastToken), old(tokenizer.Rest())))
      decreases Left(), 3
    {
      hide NextToken, ElementsFrom, MembersFrom;
      match lastToken
      case NumberToken(n) =>
        var _ :- Hold();
        return Ok(Num(n));
      case StringToken(s) =>
        var _ :- Hold();
        return Ok(Str(s));
      case False =>
        var _ :- Hold();
        return Ok(Bool(false));
      case True =>
        var _ :- Hold();
        return Ok(Bool(true));
      case Nil =>
        var _ :- Hold();
        return Ok(Null);
      case BrackL => r := ParseArray();
      case BraceL => r := ParseObject();
      case _ => return Err(BadValue);
    }

    /** The end of the loop bodies: passes over a comma, and refuses anything else but the closing token. */
    method Separator<T>(close: Token, error: ReadError, ghost value: T) returns (r: Result<(), ReadError>)
      requires Valid()
      modifies this, tokenizer
      ensures Valid()
      ensures var parse := Separated(Parsed(value, old(lastToken), old(tokenizer.Rest())), close, error);
              match r
              case Ok(_) => parse == Ok(Parsed(value, lastToken, tokenizer.Rest()))
              case Err(e) => parse == Err(e)
    {
      if lastToken == Comma {
        var _ :- Hold();
      } else if lastToken != close {
        return Err(error);
      }
      return Ok(());
    }

    method ParseMember() returns (r: Result<Member, ReadError>)
      requires Valid()
      modifies this, tokenizer
      ensures Valid() && Follows(r, MemberFrom(old(lastToken), old(tokenizer.Rest())))
      decreases Left(), 1
    {
      if !lastToken.StringToken? {
        return Err(BadObject);
      }
      var key := lastToken.s;
      var _ :- Hold();
      if lastToken != Colon {
        return Err(BadObject);
      }
      var _ :- Hold();
      var val :- ParseValue();
      return Ok(Member(key, val));
    }

    method ParseObject() returns (r: Result<Json, ReadError>)
      requires Valid()
      modifies this, tokenizer
      ensures Valid()
      ensures old(lastToken) == BraceL ==> Follows(r, ValueFrom(BraceL, old(tokenizer.Rest())))
      ensures old(lastToken) != BraceL ==> r == Err(BadObject)
      decreases Left(), 2
    {
      if lastToken != BraceL {
        return Err(BadObject);
      }
      hide NextToken, MembersFrom, MemberFrom, Put;
      ghost var whole := ValueFrom(BraceL, tokenizer.Rest());
      var _ :- Hold();
      var result: seq<Member> := [];
      while true
        invariant Valid() && Left() < old(Left())
        invariant whole == MembersFrom(lastToken, tokenizer.Rest(), result)
        decreases Left()
      {
        MembersRound(lastToken, tokenizer.Rest(), result);
        if lastToken == EOF {
          return Err(BadObject);
        }
        if lastToken == BraceR {
          var _ :- Hold();
          break;
        }
        var member :- ParseMember();
        var _ :- Separator(BraceR, BadObject, member);
        result := Put(result, member.key, member.value);
      }
      return Ok(Obj(result));
    }

    method ParseArray() returns (r: Result<Json, ReadError>)
      requires Valid()
      modifies this, tokenizer
      ensures Valid()
      ensures old(lastToken) == BrackL ==> Follows(r, ValueFrom(BrackL, old(tokenizer.Rest())))
      ensures old(lastToken) != BrackL ==> r == Err(BadArray)
      decreases Left(), 2
    {
      if lastToken != BrackL {
        return Err(BadArray);
      }
      hide NextToken, ElementsFrom;
      ghost var whole := ValueFrom(BrackL, tokenizer.Rest());
      var _ :- Hold();
      var result: seq<Json> := [];
      while true
        invariant Valid() && Left() < old(Left())
        invariant whole == ElementsFrom(lastToken, tokenizer.Rest(), result)
        decreases Left()
      {
        ElementsRound(lastToken, tokenizer.Rest(), result);
        if lastToken == EOF {
          return Err(BadArray);
        }
        if lastToken == BrackR {
          var _ :- Hold();
          break;
        }
        var val :- ParseValue();
        var _ :- Separator(BrackR, BadArray, val);
        result := result + [val];
      }
      return Ok(Arr(result));
    }
  }
}

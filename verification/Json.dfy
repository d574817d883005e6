/**
 JSON values, and the reading of a "$ref" string as a pointer into a document.

 A string here stands for its UTF-8 bytes, one character a byte, which makes percent-decoding exact.
 Pointers follow section 4 of RFC 6901, their fragment form section 6 of RFC 6901.
 */
module Json {
  import opened Decimal
  import opened Text
  import opened Wrappers

  datatype Json =
    | Null
    | Bool(b: bool)
    | Num(text: string)
    | Str(s: string)
    | Arr(items: seq<Json>)
    | Obj(fields: map<string, Json>)

  // ---------------------------------------------------------------- percent-decoding

  function HexValue(c: char): (r: Option<nat>)
    ensures r.Some? ==> r.value < 16
  {
    if '0' <= c <= '9' then Some(c as int - '0' as int)
    else if 'a' <= c <= 'f' then Some(c as int - 'a' as int + 10)
    else if 'A' <= c <= 'F' then Some(c as int - 'A' as int + 10)
    else None
  }

  function PercentDecode(s: string): (r: Option<string>)
    ensures r.Some? ==> |r.value| <= |s|
    ensures '%' !in s ==> r == Some(s)
    ensures '%' in s && r.Some? ==> |r.value| < |s|
  {
    if s == "" then Some("")
    else if s[0] != '%' then
      match PercentDecode(s[1..])
      case Some(rest) => assert s == [s[0]] + s[1..]; Some([s[0]] + rest)
      case None => None
    else if |s| < 3 then None
    else
      match (HexValue(s[1]), HexValue(s[2]), PercentDecode(s[3..]))
      case (Some(high), Some(low), Some(rest)) => Some([(16 * high + low) as char] + rest)
      case _ => None
  }

  function Prepend(front: string, decoded: Option<string>): Option<string> {
    match decoded
    case Some(d) => Some(front + d)
    case None => None
  }

  lemma {:induction false} PercentDecodeChar(c: char, rest: string)
    requires c != '%'
    ensures PercentDecode([c] + rest) == Prepend([c], PercentDecode(rest))
  {
    assert ([c] + rest)[1..] == rest;
  }

  lemma PrependTwice(a: string, b: string, decoded: Option<string>)
    ensures Prepend(a, Prepend(b, decoded)) == Prepend(a + b, decoded)
  {
    if decoded.Some? { assert a + (b + decoded.value) == (a + b) + decoded.value; }
  }

  /** Decoding a text whose front holds no escape leaves that front as it is. */
  lemma {:induction false} PercentDecodeFront(front: string, rest: string)
    requires '%' !in front
    ensures PercentDecode(front + rest) == Prepend(front, PercentDecode(rest))
  {
    if front == "" {
      assert front + rest == rest;
      if PercentDecode(rest).Some? { assert front + PercentDecode(rest).value == PercentDecode(rest).value; }
    } else {
      calc {
        PercentDecode(front + rest);
        { assert front + rest == [front[0]] + (front[1..] + rest); }
        PercentDecode([front[0]] + (front[1..] + rest));
        { PercentDecodeChar(front[0], front[1..] + rest); }
        Prepend([front[0]], PercentDecode(front[1..] + rest));
        { PercentDecodeFront(front[1..], rest); }
        Prepend([front[0]], Prepend(front[1..], PercentDecode(rest)));
        { PrependTwice([front[0]], front[1..], PercentDecode(rest)); }
        Prepend([front[0]] + front[1..], PercentDecode(rest));
        { assert [front[0]] + front[1..] == front; }
        Prepend(front, PercentDecode(rest));
      }
    }
  }

  // ---------------------------------------------------------------- pointer tokens

  function Unescape(token: string): (r: Option<string>)
    ensures r.Some? ==> |r.value| <= |token|
    ensures '~' !in token ==> r == Some(token)
    ensures '~' in token && r.Some? ==> |r.value| < |token|
  {
    if token == "" then Some("")
    else if token[0] != '~' then
      match Unescape(token[1..])
      case Some(rest) => assert token == [token[0]] + token[1..]; Some([token[0]] + rest)
      case None => None
    else if |token| >= 2 && token[1] == '0' then
      match Unescape(token[2..])
      case Some(rest) => Some("~" + rest)
      case None => None
    else if |token| >= 2 && token[1] == '1' then
      match Unescape(token[2..])
      case Some(rest) => Some("/" + rest)
      case None => None
    else None
  }

  function UnescapeAll(tokens: seq<string>): (r: Option<seq<string>>)
    ensures r.Some? ==> |r.value| == |tokens|
    ensures r.Some? ==> forall i :: 0 <= i < |tokens| ==> Unescape(tokens[i]) == Some(r.value[i])
  {
    if tokens == [] then Some([])
    else
      match (Unescape(tokens[0]), UnescapeAll(tokens[1..]))
      case (Some(first), Some(rest)) => Some([first] + rest)
      case _ => None
  }

  datatype Reference =
    | Pointer(tokens: seq<string>)  // a place in this document
    | Broken                        // a fragment that decodes to no pointer
    | Elsewhere                     // another document, or a plain-name anchor

  /** A decoded fragment, read as a pointer. */
  function ReadPointer(pointer: string): Reference {
    if pointer == "" then Pointer([])
    else if pointer[0] != '/' then Elsewhere
    else
      match UnescapeAll(Split(pointer[1..], '/'))
      case None => Broken
      case Some(tokens) => Pointer(tokens)
  }

  function ReadFragment(fragment: string): Reference {
    match PercentDecode(fragment)
    case None => Broken
    case Some(pointer) => ReadPointer(pointer)
  }

  /** What a "$ref" string points at. */
  function ReadReference(ref: string): Reference {
    if ref == "" then Pointer([]) else if ref[0] != '#' then Elsewhere else ReadFragment(ref[1..])
  }

  // ---------------------------------------------------------------- stepping into a value

  /** An array index is written in decimal without leading zeros. */
  function ArrayIndex(token: string): Option<nat> {
    if IsCanonical(token) then Some(Value(token)) else None
  }

  function Member(v: Json, token: string): (r: Option<Json>)
    ensures r.Some? ==> r.value < v
  {
    match v
    case Obj(fields) => if token in fields then Some(fields[token]) else None
    case Arr(items) =>
      (match ArrayIndex(token)
       case Some(i) => if i < |items| then Some(items[i]) else None
       case None => None)
    case _ => None
  }
}

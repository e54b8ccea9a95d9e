/**
 The cursor parser of AT-SPI bulk cache replies, whose D-Bus signature is
 `a((so)(so)(so)iiassusau)`: a class that advances over the tokens, and the functions of the
 token list and the position that it computes.
 */
module CacheReply {
  import opened Outcome
  import opened Utf8
  import opened RustText
  import opened CacheTokenizer

  const SIGNATURE: Text := Bytes("a((so)(so)(so)iiassusau)")
  const MAX_CACHE_ITEMS: nat := 65536
  const USIZE_MAX: nat := 0xFFFF_FFFF_FFFF_FFFF

  datatype ObjectRef = ObjectRef(service: Text, path: Text)

  datatype CacheItem = CacheItem(
    node: ObjectRef,
    parent: ObjectRef,
    interfaces: seq<Text>,
    name: Text,
    role: u32,
    states: seq<u32>
  )

  // ---------- Reading at a position ----------

  type Read<T> = Result<T, CacheError>

  function WordAt(ts: seq<Token>, i: nat): Read<Text> {
    if i >= |ts| then Err(TruncatedReply) else if ts[i].Word? then Ok(ts[i].text) else Err(ExpectedWord)
  }

  function QuotedAt(ts: seq<Token>, i: nat): Read<Text> {
    if i >= |ts| then Err(TruncatedReply) else if ts[i].Quoted? then Ok(ts[i].text) else Err(ExpectedQuoted)
  }

  function UsizeAt(ts: seq<Token>, i: nat): (r: Read<nat>)
    ensures r.Ok? ==> r.value <= USIZE_MAX
  {
    var word :- WordAt(ts, i);
    match Number(word, false)
    case Some(n) => if 0 <= n <= USIZE_MAX then Ok(n) else Err(InvalidCount)
    case None => Err(InvalidCount)
  }

  function I32At(ts: seq<Token>, i: nat): Read<i32> {
    var word :- WordAt(ts, i);
    match Number(word, true)
    case Some(n) => if -0x8000_0000 <= n < 0x8000_0000 then Ok(n) else Err(InvalidInteger)
    case None => Err(InvalidInteger)
  }

  function U32At(ts: seq<Token>, i: nat): Read<u32> {
    var word :- WordAt(ts, i);
    match Number(word, false)
    case Some(n) => if 0 <= n < 0x1_0000_0000 then Ok(n) else Err(InvalidUnsigned)
    case None => Err(InvalidUnsigned)
  }

  function ObjectRefAt(ts: seq<Token>, i: nat): Read<ObjectRef> {
    var service :- QuotedAt(ts, i);
    var path :- QuotedAt(ts, i + 1);
    Ok(ObjectRef(service, path))
  }

  /** `n` quoted tokens from `i` on. */
  function QuotedsAt(ts: seq<Token>, i: nat, n: nat): (r: Read<seq<Text>>)
    ensures r.Ok? ==> |r.value| == n
  {
    if n == 0 then Ok([]) else
      var init :- QuotedsAt(ts, i, n - 1);
      var last :- QuotedAt(ts, i + n - 1);
      Ok(init + [last])
  }

  /** `n` unsigned words from `i` on. */
  function U32sAt(ts: seq<Token>, i: nat, n: nat): (r: Read<seq<u32>>)
    ensures r.Ok? ==> |r.value| == n
  {
    if n == 0 then Ok([]) else
      var init :- U32sAt(ts, i, n - 1);
      var last :- U32At(ts, i + n - 1);
      Ok(init + [last])
  }

  /** The head of a record: node, application, parent, index in parent, child count. */
  function HeadAt(ts: seq<Token>, i: nat): Read<(ObjectRef, ObjectRef)> {
    var node :- ObjectRefAt(ts, i);
    var application :- ObjectRefAt(ts, i + 2);
    var parent :- ObjectRefAt(ts, i + 4);
    var indexInParent :- I32At(ts, i + 6);
    var childCount :- I32At(ts, i + 7);
    Ok((node, parent))
  }

  /** One record, and the position after it. */
  function RecordAt(ts: seq<Token>, i: nat): (r: Read<(CacheItem, nat)>)
    ensures r.Ok? ==> i < r.value.1
  {
    var (node, parent) :- HeadAt(ts, i);
    var interfaceCount :- UsizeAt(ts, i + 8);
    var interfaces :- QuotedsAt(ts, i + 9, interfaceCount);
    var j := i + 9 + interfaceCount;
    var name :- QuotedAt(ts, j);
    var role :- U32At(ts, j + 1);
    var description :- QuotedAt(ts, j + 2);
    var stateCount :- UsizeAt(ts, j + 3);
    var states :- U32sAt(ts, j + 4, stateCount);
    Ok((CacheItem(node, parent, interfaces, name, role, states), j + 4 + stateCount))
  }

  /** `n` records from `i` on, and the position after them. */
  function RecordsAt(ts: seq<Token>, i: nat, n: nat): (r: Read<(seq<CacheItem>, nat)>)
    ensures r.Ok? ==> |r.value.0| == n && i <= r.value.1
  {
    if n == 0 then Ok(([], i)) else
      var (init, j) :- RecordsAt(ts, i, n - 1);
      var (last, k) :- RecordAt(ts, j);
      Ok((init + [last], k))
  }

  function ItemsOf(ts: seq<Token>): Read<seq<CacheItem>> {
    var signature :- WordAt(ts, 0);
    if signature != SIGNATURE then Err(UnexpectedSignature) else
      var count :- UsizeAt(ts, 1);
      if count > MAX_CACHE_ITEMS then Err(TooManyItems) else
        var (items, end) :- RecordsAt(ts, 2, count);
        if end < |ts| then Err(TrailingTokens) else Ok(items)
  }

  // ---------- The cursor ----------

  class Cursor {
    const tokens: seq<Token>
    var index: nat

    ghost predicate Valid()
      reads this
    {
      index <= |tokens|
    }

    constructor (tokens: seq<Token>)
      ensures Valid() && this.tokens == tokens && index == 0
    {
      this.tokens := tokens;
      index := 0;
    }

    function Remaining(): nat
      requires Valid()
      reads this
    {
      |tokens| - index
    }

    /** Takes one token; at the end it reports truncation and stays. */
    method Next() returns (r: Read<Token>)
      requires Valid()
      modifies this
      ensures Valid()
      ensures r == if old(index) < |tokens| then Ok(tokens[old(index)]) else Err(TruncatedReply)
      ensures index == old(index) + if old(index) < |tokens| then 1 else 0
    {
      if index >= |tokens| {
        return Err(TruncatedReply);
      }
      r := Ok(tokens[index]);
      index := index + 1;
    }

    method TakeWord() returns (r: Read<Text>)
      requires Valid()
      modifies this
      ensures Valid() && old(index) <= index && (r.Ok? ==> index == old(index) + 1)
      ensures r == WordAt(tokens, old(index))
    {
      var token := Next();
      if token.Err? {
        return Err(token.error);
      }
      r := if token.value.Word? then Ok(token.value.text) else Err(ExpectedWord);
    }

    method TakeQuoted() returns (r: Read<Text>)
      requires Valid()
      modifies this
      ensures Valid() && old(index) <= index && (r.Ok? ==> index == old(index) + 1)
      ensures r == QuotedAt(tokens, old(index))
    {
      var token := Next();
      if token.Err? {
        return Err(token.error);
      }
      r := if token.value.Quoted? then Ok(token.value.text) else Err(ExpectedQuoted);
    }

    method TakeUsize() returns (r: Read<nat>)
      requires Valid()
      modifies this
      ensures Valid() && old(index) <= index && (r.Ok? ==> index == old(index) + 1)
      ensures r == UsizeAt(tokens, old(index))
    {
      var word := TakeWord();
      if word.Err? {
        return Err(word.error);
      }
      var n := Number(word.value, false);
      r := if n.Some? && 0 <= n.value <= USIZE_MAX then Ok(n.value) else Err(InvalidCount);
    }

    method TakeI32() returns (r: Read<i32>)
      requires Valid()
      modifies this
      ensures Valid() && old(index) <= index && (r.Ok? ==> index == old(index) + 1)
      ensures r == I32At(tokens, old(index))
    {
      var word := TakeWord();
      if word.Err? {
        return Err(word.error);
      }
      var n := Number(word.value, true);
      r := if n.Some? && -0x8000_0000 <= n.value < 0x8000_0000 then Ok(n.value) else Err(InvalidInteger);
    }

    method TakeU32() returns (r: Read<u32>)
      requires Valid()
      modifies this
      ensures Valid() && old(index) <= index && (r.Ok? ==> index == old(index) + 1)
      ensures r == U32At(tokens, old(index))
    {
      var word := TakeWord();
      if word.Err? {
        return Err(word.error);
      }
      var n := Number(word.value, false);
      r := if n.Some? && 0 <= n.value < 0x1_0000_0000 then Ok(n.value) else Err(InvalidUnsigned);
    }

    method TakeObjectRef() returns (r: Read<ObjectRef>)
      requires Valid()
      modifies this
      ensures Valid() && old(index) <= index && (r.Ok? ==> index == old(index) + 2)
      ensures r == ObjectRefAt(tokens, old(index))
    {
      var service := TakeQuoted();
      if service.Err? {
        return Err(service.error);
      }
      var path := TakeQuoted();
      if path.Err? {
        return Err(path.error);
      }
      r := Ok(ObjectRef(service.value, path.value));
    }

    method TakeHead() returns (r: Read<(ObjectRef, ObjectRef)>)
      requires Valid()
      modifies this
      ensures Valid() && old(index) <= index && (r.Ok? ==> index == old(index) + 8)
      ensures r == HeadAt(tokens, old(index))
    {
      var node := TakeObjectRef();
      if node.Err? { return Err(node.error); }
      var application := TakeObjectRef();
      if application.Err? { return Err(application.error); }
      var parent := TakeObjectRef();
      if parent.Err? { return Err(parent.error); }
      var indexInParent := TakeI32();
      if indexInParent.Err? { return Err(indexInParent.error); }
      var childCount := TakeI32();
      if childCount.Err? { return Err(childCount.error); }
      r := Ok((node.value, parent.value));
    }

    method TakeQuoteds(count: nat) returns (r: Read<seq<Text>>)
      requires Valid()
      modifies this
      ensures Valid() && old(index) <= index && (r.Ok? ==> index == old(index) + count)
      ensures r == QuotedsAt(tokens, old(index), count)
    {
      var values: seq<Text> := [];
      for k := 0 to count
        invariant Valid() && index == old(index) + k
        invariant QuotedsAt(tokens, old(index), k) == Ok(values)
      {
        var value := TakeQuoted();
        if value.Err? {
          QuotedsFail(tokens, old(index), k, count);
          return Err(value.error);
        }
        values := values + [value.value];
      }
      r := Ok(values);
    }

    method TakeU32s(count: nat) returns (r: Read<seq<u32>>)
      requires Valid()
      modifies this
      ensures Valid() && old(index) <= index && (r.Ok? ==> index == old(index) + count)
      ensures r == U32sAt(tokens, old(index), count)
    {
      var values: seq<u32> := [];
      for k := 0 to count
        invariant Valid() && index == old(index) + k
        invariant U32sAt(tokens, old(index), k) == Ok(values)
      {
        var value := TakeU32();
        if value.Err? {
          U32sFail(tokens, old(index), k, count);
          return Err(value.error);
        }
        values := values + [value.value];
      }
      r := Ok(values);
    }

    method TakeRecord() returns (r: Read<CacheItem>)
      requires Valid()
      modifies this
      ensures Valid() && old(index) <= index
      ensures match RecordAt(tokens, old(index))
        case Ok((item, end)) => r == Ok(item) && index == end
        case Err(e) => r == Err(e)
    {
      hide HeadAt, UsizeAt, QuotedsAt, QuotedAt, U32At, U32sAt;
      var head := TakeHead();
      if head.Err? { return Err(head.error); }
      var (node, parent) := head.value;
      var interfaceCount := TakeUsize();
      if interfaceCount.Err? { return Err(interfaceCount.error); }
      var interfaces := TakeQuoteds(interfaceCount.value);
      if interfaces.Err? { return Err(interfaces.error); }
      var name := TakeQuoted();
      if name.Err? { return Err(name.error); }
      var role := TakeU32();
      if role.Err? { return Err(role.error); }
      var description := TakeQuoted();
      if description.Err? { return Err(description.error); }
      var stateCount := TakeUsize();
      if stateCount.Err? { return Err(stateCount.error); }
      var states := TakeU32s(stateCount.value);
      if states.Err? { return Err(states.error); }
      r := Ok(CacheItem(node, parent, interfaces.value, name.value, role.value, states.value));
    }
  }

  lemma {:induction false} QuotedsFail(ts: seq<Token>, i: nat, k: nat, n: nat)
    requires k < n && QuotedsAt(ts, i, k).Ok? && QuotedAt(ts, i + k).Err?
    ensures QuotedsAt(ts, i, n) == Err(QuotedAt(ts, i + k).error)
  {
    if n > k + 1 {
      QuotedsFail(ts, i, k, n - 1);
    }
  }

  lemma {:induction false} U32sFail(ts: seq<Token>, i: nat, k: nat, n: nat)
    requires k < n && U32sAt(ts, i, k).Ok? && U32At(ts, i + k).Err?
    ensures U32sAt(ts, i, n) == Err(U32At(ts, i + k).error)
  {
    if n > k + 1 {
      U32sFail(ts, i, k, n - 1);
    }
  }

  lemma {:induction false} RecordsFail(ts: seq<Token>, i: nat, k: nat, n: nat)
    requires k < n && RecordsAt(ts, i, k).Ok? && RecordAt(ts, RecordsAt(ts, i, k).value.1).Err?
    ensures RecordsAt(ts, i, n) == Err(RecordAt(ts, RecordsAt(ts, i, k).value.1).error)
  {
    hide RecordAt;
    if n > k + 1 {
      RecordsFail(ts, i, k, n - 1);
    }
  }

  /** What a whole reply text means. */
  function ReplyOf(output: Text): Read<seq<CacheItem>> {
    var tokens :- TokensFrom(output, 0);
    ItemsOf(tokens)
  }

  method ParseItems(output: Text) returns (r: Read<seq<CacheItem>>)
    ensures r == ReplyOf(output)
  {
    hide RecordAt, Number, TokensFrom, SIGNATURE;
    var tokens := Tokenize(output);
    if tokens.Err? { return Err(tokens.error); }
    var cursor := new Cursor(tokens.value);
    var signature := cursor.TakeWord();
    if signature.Err? { return Err(signature.error); }
    if signature.value != SIGNATURE { return Err(UnexpectedSignature); }
    var count := cursor.TakeUsize();
    if count.Err? { return Err(count.error); }
    if count.value > MAX_CACHE_ITEMS { return Err(TooManyItems); }
    var items: seq<CacheItem> := [];
    for k := 0 to count.value
      invariant cursor.Valid() && cursor.tokens == tokens.value
      invariant RecordsAt(tokens.value, 2, k) == Ok((items, cursor.index))
    {
      var item := cursor.TakeRecord();
      if item.Err? {
        RecordsFail(tokens.value, 2, k, count.value);
        return Err(item.error);
      }
      items := items + [item.value];
    }
    if cursor.Remaining() != 0 { return Err(TrailingTokens); }
    r := Ok(items);
  }
}

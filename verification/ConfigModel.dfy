/** Configurations, what JSON keeps of them, their validation, and what one sync of one key decides. */
module ConfigModel {
  import opened Common

  /**
   * The dynamic value of a configuration's content. `Float` is a number and `Object` a
   * `map[string]interface{}`, as JSON reads them; `AnyMap` is a `map[interface{}]interface{}`,
   * which JSON cannot write; `Typed` is a value of any other Go type, with the value its JSON
   * reads back as, if it has any.
   */
  datatype Content =
    | Nil
    | Text(text: string)
    | Int(n: int)
    | Float(x: real)
    | Flag(flag: bool)
    | List(items: seq<Content>)
    | AnyMap(size: nat)
    | Object(tag: string)
    | Typed(json: Option<Content>)

  predicate IsOnlyEmpty(c: Content) {
    match c
    case Nil => true
    case Text(text) => text == ""
    case Int(n) => n == 0
    case Flag(flag) => !flag
    case List(items) => items == []
    case AnyMap(size) => size == 0
    case _ => false
  }

  /** Empty are the zero values of six Go types, and nothing else. */
  lemma OnlyEmptyIff(c: Content)
    ensures IsOnlyEmpty(c) <==> c in {Nil, Text(""), Int(0), Flag(false), List([]), AnyMap(0)}
  {
  }

  /** What a content is read back as after it was written as JSON, if it can be written. */
  function ReadBack(c: Content): Option<Content> {
    match c
    case Int(n) => Some(Float(n as real))
    case List(items) =>
      (match ReadBackAll(items)
       case None => None
       case Some(read) => Some(List(read)))
    case AnyMap(_) => None
    case Typed(json) => if json.None? then None else ReadBack(json.value)
    case _ => Some(c)
  }

  function ReadBackAll(items: seq<Content>): Option<seq<Content>> {
    if items == [] then Some([]) else
      match ReadBack(items[0])
      case None => None
      case Some(first) =>
        match ReadBackAll(items[1..])
        case None => None
        case Some(rest) => Some([first] + rest)
  }

  /** d is what c looks like once it was written as JSON: integers are floats, and lists keep their order. */
  predicate ReadsAs(c: Content, d: Content)
    decreases c
  {
    match c
    case Int(n) => d == Float(n as real)
    case List(items) => d.List? && |d.items| == |items| && forall i | 0 <= i < |items| :: ReadsAs(items[i], d.items[i])
    case AnyMap(_) => false
    case Typed(json) => json.Some? && ReadsAs(json.value, d)
    case _ => d == c
  }

  lemma {:induction false} ReadBackIff(c: Content, d: Content)
    ensures ReadBack(c) == Some(d) <==> ReadsAs(c, d)
    decreases c, 1
  {
    match c
    case List(items) =>
      if d.List? {
        ReadBackAllIff(items, d.items);
      }
    case Typed(json) =>
      if json.Some? {
        ReadBackIff(json.value, d);
      }
    case _ =>
  }

  /** Item by item. */
  predicate AllReadAs(items: seq<Content>, read: seq<Content>) {
    |read| == |items| && forall i | 0 <= i < |items| :: ReadsAs(items[i], read[i])
  }

  lemma AllReadAsFirst(items: seq<Content>, read: seq<Content>)
    requires items != [] && read != []
    ensures AllReadAs(items, read) <==> ReadsAs(items[0], read[0]) && AllReadAs(items[1..], read[1..])
  {
    if ReadsAs(items[0], read[0]) && AllReadAs(items[1..], read[1..]) {
      forall i | 0 <= i < |items|
        ensures ReadsAs(items[i], read[i])
      {
        assert i > 0 ==> ReadsAs(items[1..][i - 1], read[1..][i - 1]);
      }
    }
    if AllReadAs(items, read) {
      forall i | 0 <= i < |items| - 1
        ensures ReadsAs(items[1..][i], read[1..][i])
      {
        assert ReadsAs(items[i + 1], read[i + 1]);
      }
    }
  }

  lemma {:induction false} ReadBackAllIff(items: seq<Content>, read: seq<Content>)
    ensures ReadBackAll(items) == Some(read) <==> AllReadAs(items, read)
    decreases items, 0
  {
    if items != [] && read != [] {
      ReadBackIff(items[0], read[0]);
      ReadBackAllIff(items[1..], read[1..]);
      AllReadAsFirst(items, read);
      ReadBackAllFirst(items, read);
    }
  }

  lemma ReadBackAllFirst(items: seq<Content>, read: seq<Content>)
    requires items != [] && read != []
    ensures ReadBackAll(items) == Some(read) <==> ReadBack(items[0]) == Some(read[0]) && ReadBackAll(items[1..]) == Some(read[1..])
  {
    assert read == [read[0]] + read[1..];
    var first, rest := ReadBack(items[0]), ReadBackAll(items[1..]);
    if first.Some? && rest.Some? {
      var all := [first.value] + rest.value;
      assert all[0] == first.value && all[1..] == rest.value;
      assert all == read <==> first.value == read[0] && rest.value == read[1..];
    }
  }

  /** A value that JSON can hold: reading it back changes nothing any more. */
  predicate IsJson(c: Content) {
    ReadBack(c) == Some(c)
  }

  lemma {:induction false} ReadBackIsJson(c: Content)
    ensures ReadBack(c).Some? ==> IsJson(ReadBack(c).value)
    decreases c, 1
  {
    match c
    case List(items) => ReadBackAllIsJson(items);
    case Typed(json) =>
      if json.Some? {
        ReadBackIsJson(json.value);
      }
    case _ =>
  }

  lemma {:induction false} ReadBackAllIsJson(items: seq<Content>)
    ensures ReadBackAll(items).Some? ==> ReadBackAll(ReadBackAll(items).value) == ReadBackAll(items)
    decreases items, 0
  {
    if items != [] {
      ReadBackIsJson(items[0]);
      ReadBackAllIsJson(items[1..]);
    }
  }

  /** What travels to the remote side: the validation callback does not. */
  datatype Document = Document(name: string, version: int, content: Content)

  /** The document as it is stored and read back, or nothing when it cannot be marshalled. */
  function Encode(d: Document): (r: Option<Document>)
    ensures r.Some? ==> IsJson(r.value.content) && r.value.version == d.version
    ensures IsJson(d.content) ==> r == Some(d)
  {
    ReadBackIsJson(d.content);
    if ReadBack(d.content).None? then None else Some(d.(content := ReadBack(d.content).value))
  }

  datatype Verdict = Verdict(skip: bool, failed: bool)

  datatype Config = Config(doc: Document, validator: Option<Document -> Verdict>)

  function CallValidate(c: Config): Verdict {
    match c.validator
    case Some(f) => f(c.doc)
    case None => Verdict(false, IsOnlyEmpty(c.doc.content))
  }

  /** A configuration read back from the remote side has no callback of its own. */
  function Decode(d: Document): Config {
    Config(d, None)
  }

  /** A version that was never set becomes 1 when the configuration is first uploaded. */
  function Lifted(d: Document): (r: Document)
    ensures r.version == Max(1, d.version) && r.name == d.name && r.content == d.content
  {
    if d.version <= 0 then d.(version := 1) else d
  }

  datatype Decision = Skip | Reject | Keep | Adopt(doc: Document) | Upload(doc: Document)

  /** One key of `SyncConfig`: `remote` is what the provider returned. */
  function Decide(local: Config, remote: Option<Document>): Decision {
    match remote
    case None =>
      var v := CallValidate(local);
      if v.failed then (if v.skip then Skip else Reject) else Upload(Lifted(local.doc))
    case Some(r) =>
      var v := CallValidate(Decode(r));
      if v.failed then (if v.skip then Skip else Reject)
      else if r.version > local.doc.version then Adopt(r)
      else if r.version < local.doc.version then Upload(local.doc)
      else Keep
  }

  function Lookup<V>(m: map<string, V>, key: string): Option<V> {
    if key in m then Some(m[key]) else None
  }
}

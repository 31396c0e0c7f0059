/** Binding form or query values to a structure: recursion over a possibly cyclic graph of objects, stopped
    by a set of the struct types being bound. A struct held in a field is an object of its own, so every
    leaf has one location: its object and its field index. Reflection is a finite table of types. */
module FormBinder {
  import opened Wrappers
  import opened Text
  import opened Numerals

  type Object = nat
  type TypeId = nat
  type Location = (Object, nat)

  datatype Kind =
    | String | Int | Uint | Float | Bool
    | Strings | OtherSlice
    | Struct(of: TypeId) | PointerTo(of: TypeId)
    | Unsupported

  datatype Field = Field(exported: bool, tag: string, kind: Kind)

  datatype Value =
    | Text(text: string) | Signed(n: int) | Unsigned(n: int) | Real(r: real) | Truth(b: bool)
    | List(texts: seq<string>) | Foreign(id: nat)

  datatype Error = NotNumber(text: string) | NotBool(text: string) | NotFloat(text: string)
                 | SliceOfOthers | UnsupportedKind | NotPointerToObject

  /** The objects in reach of the target, their struct types, and where their struct and pointer fields lead;
      a nil pointer leads nowhere. */
  datatype Graph = Graph(typ: map<Object, TypeId>, fields: map<TypeId, seq<Field>>, next: map<Location, Object>)
  {
    ghost predicate Valid() {
      && (forall o | o in typ :: typ[o] in fields)
      && (forall o, i | o in typ && 0 <= i < |fields[typ[o]]| && fields[typ[o]][i].kind.Struct? :: (o, i) in next)
      && (forall l | l in next :: next[l] in typ)
    }

    predicate Has(l: Location) {
      l.0 in typ && typ[l.0] in fields && l.1 < |fields[typ[l.0]]|
    }

    function At(l: Location): Field
      requires Has(l)
    {
      fields[typ[l.0]][l.1]
    }

    /** A field with a content of its own. */
    predicate Leaf(l: Location) {
      Has(l) && !At(l).kind.Struct? && !At(l).kind.PointerTo?
    }
  }

  /** The request: its values, and what strconv.ParseFloat makes of a text. */
  datatype Request = Request(values: map<string, seq<string>>, parseFloat: string -> Option<real>)

  // ---- texts to values ----------------------------------------------------------------------

  const MAX_INT64 := 0x7FFF_FFFF_FFFF_FFFF
  const MAX_UINT64 := 0xFFFF_FFFF_FFFF_FFFF

  datatype Parsed = Parsed(value: Value) | Failed(error: Error)

  predicate AllDigits(t: string) {
    t != "" && forall c | c in t :: '0' <= c <= '9'
  }

  function ParseInt(t: string): Parsed {
    var body := if t != "" && (t[0] == '-' || t[0] == '+') then t[1..] else t;
    if !AllDigits(body) then Failed(NotNumber(t))
    else
      var n := if t[0] == '-' then -DigitsValue(body) else DigitsValue(body);
      if -MAX_INT64 - 1 <= n <= MAX_INT64 then Parsed(Signed(n)) else Failed(NotNumber(t))
  }

  function ParseUint(t: string): Parsed {
    if !AllDigits(t) then Failed(NotNumber(t))
    else if DigitsValue(t) <= MAX_UINT64 then Parsed(Unsigned(DigitsValue(t)))
    else Failed(NotNumber(t))
  }

  function ParseBool(t: string): Parsed {
    if t in {"1", "t", "T", "TRUE", "true", "True"} then Parsed(Truth(true))
    else if t in {"0", "f", "F", "FALSE", "false", "False"} then Parsed(Truth(false))
    else Failed(NotBool(t))
  }

  /** Every 64-bit number printed in decimal binds to itself; every other number is refused. */
  lemma NumbersBind(n: int)
    ensures ParseInt(Decimal(n)) ==
            if -MAX_INT64 - 1 <= n <= MAX_INT64 then Parsed(Signed(n)) else Failed(NotNumber(Decimal(n)))
    ensures ParseUint(Decimal(n)) ==
            if n < 0 then Failed(NotNumber(Decimal(n)))
            else if n <= MAX_UINT64 then Parsed(Unsigned(n))
            else Failed(NotNumber(Decimal(n)))
  {
    var t := Decimal(n);
    DigitsRead(if n < 0 then -n else n);
    if n < 0 {
      assert t[1..] == Digits(-n) && t[0] == '-' && t[0] in t;
    } else {
      assert t[0] in t;
    }
  }

  // ---- tags ---------------------------------------------------------------------------------

  /** strings.IndexByte(tag, ','), or the length of the tag. */
  function Comma(tag: string): (i: nat)
    ensures i <= |tag| && (i < |tag| ==> tag[i] == ',') && ',' !in tag[..i]
  {
    if tag == "" || tag[0] == ',' then 0
    else
      var i := Comma(tag[1..]);
      assert tag[..1 + i] == [tag[0]] + tag[1..][..i];
      1 + i
  }

  const DEFAULT := "default="

  function TagName(tag: string): string {
    tag[..Comma(tag)]
  }

  function TagDefault(tag: string): string {
    var i := Comma(tag);
    if i < |tag| && HasPrefix(tag[i + 1..], DEFAULT) then tag[i + 1..][|DEFAULT|..] else ""
  }

  /** A tag written as a name, a comma and a default is taken apart into that name and that default. */
  lemma TagRoundTrip(name: string, default: string)
    requires ',' !in name
    ensures TagName(name) == name && TagDefault(name) == ""
    ensures TagName(name + "," + DEFAULT + default) == name
    ensures TagDefault(name + "," + DEFAULT + default) == default
  {
    CommaAfter(name, "");
    assert name + "" == name;
    var tag := name + "," + DEFAULT + default;
    assert tag == name + ("," + DEFAULT + default);
    CommaAfter(name, "," + DEFAULT + default);
    assert tag[|name| + 1..] == DEFAULT + default;
  }

  lemma {:induction false} CommaAfter(name: string, rest: string)
    requires ',' !in name && (rest == "" || rest[0] == ',')
    ensures Comma(name + rest) == |name|
    ensures (name + rest)[..|name|] == name
  {
    if name == "" {
      assert name + rest == rest;
    } else {
      CommaAfter(name[1..], rest);
      assert (name + rest)[1..] == name[1..] + rest;
    }
  }

  // ---- what one field asks for --------------------------------------------------------------

  /** The texts a field takes: the request's, or its default, or none. */
  function Texts(tag: string, req: Request): seq<string> {
    var name := TagName(tag);
    if name in req.values && req.values[name] != [] then req.values[name]
    else if TagDefault(tag) != "" then [TagDefault(tag)]
    else []
  }

  function Parse(kind: Kind, texts: seq<string>, req: Request): Parsed
    requires texts != []
  {
    match kind
    case String => Parsed(Text(texts[0]))
    case Int => ParseInt(texts[0])
    case Uint => ParseUint(texts[0])
    case Float =>
      (match req.parseFloat(texts[0])
       case Some(r) => Parsed(Real(r))
       case None => Failed(NotFloat(texts[0])))
    case Bool => ParseBool(texts[0])
    case Strings => Parsed(List(texts))
    case OtherSlice => Failed(SliceOfOthers)
    case _ => Failed(UnsupportedKind)
  }

  datatype Action = Skip | Into(o: Object) | Put(value: Value) | Refuse(error: Error)

  /** What binding does with one field. */
  function ActionOf(g: Graph, req: Request, l: Location): Action
    requires g.Has(l)
  {
    var f := g.At(l);
    if !f.exported || f.tag == "-" then Skip
    else if f.kind.Struct? || f.kind.PointerTo? then (if l in g.next then Into(g.next[l]) else Skip)
    else if TagName(f.tag) == "" || TagName(f.tag) == "-" || Texts(f.tag, req) == [] then Skip
    else
      match Parse(f.kind, Texts(f.tag, req), req)
      case Parsed(v) => Put(v)
      case Failed(e) => Refuse(e)
  }

  // ---- the order of binding -----------------------------------------------------------------

  /** The leaves in the order they are bound, below an object, while the types in `open` are being bound. */
  ghost function Order(g: Graph, req: Request, open: set<TypeId>, o: Object): seq<Location>
    requires g.Valid() && o in g.typ
    decreases |g.fields.Keys - open|, 0
  {
    if g.typ[o] in open then []
    else
      Shrinks(g, open, o);
      OrderFrom(g, req, open + {g.typ[o]}, o, 0)
  }

  ghost function OrderFrom(g: Graph, req: Request, open: set<TypeId>, o: Object, i: nat): seq<Location>
    requires g.Valid() && o in g.typ && i <= |g.fields[g.typ[o]]|
    decreases |g.fields.Keys - open|, |g.fields[g.typ[o]]| - i + 1
  {
    if i == |g.fields[g.typ[o]]| then []
    else
      (match ActionOf(g, req, (o, i)) case Into(c) => Order(g, req, open, c) case Skip => [] case _ => [(o, i)])
      + OrderFrom(g, req, open, o, i + 1)
  }

  lemma Shrinks(g: Graph, open: set<TypeId>, o: Object)
    requires g.Valid() && o in g.typ && g.typ[o] !in open
    ensures |g.fields.Keys - (open + {g.typ[o]})| < |g.fields.Keys - open|
  {
    assert g.fields.Keys - open == g.fields.Keys - (open + {g.typ[o]}) + {g.typ[o]};
  }

  datatype Result = Result(mem: map<Location, Value>, error: Option<Error>)

  /** Binding leaves one after the other, up to the first that is refused. */
  ghost function Perform(g: Graph, req: Request, locs: seq<Location>, mem: map<Location, Value>): Result
    requires forall l | l in locs :: g.Has(l)
  {
    if locs == [] then Result(mem, None)
    else
      match ActionOf(g, req, locs[0])
      case Put(v) => Perform(g, req, locs[1..], mem[locs[0] := v])
      case Refuse(e) => Result(mem, Some(e))
      case _ => Perform(g, req, locs[1..], mem)
  }

  /** The part of the order that the i-th field contributes. */
  ghost predicate InField(g: Graph, req: Request, open: set<TypeId>, o: Object, i: nat, l: Location)
    requires g.Valid() && o in g.typ && i < |g.fields[g.typ[o]]|
  {
    match ActionOf(g, req, (o, i)) case Into(c) => l in Order(g, req, open, c) case Skip => false case _ => l == (o, i)
  }

  lemma FieldOrLater(g: Graph, req: Request, open: set<TypeId>, o: Object, i: nat, l: Location)
    requires g.Valid() && o in g.typ && i < |g.fields[g.typ[o]]|
    ensures l in OrderFrom(g, req, open, o, i) <==>
            InField(g, req, open, o, i, l) || l in OrderFrom(g, req, open, o, i + 1)
  {
    hide ActionOf, Order;
  }

  lemma NoField(g: Graph, req: Request, open: set<TypeId>, o: Object)
    requires g.Valid() && o in g.typ
    ensures OrderFrom(g, req, open, o, |g.fields[g.typ[o]]|) == []
  {
  }

  /** A leaf that is written or refused. */
  ghost predicate Acts(g: Graph, req: Request, l: Location) {
    g.Leaf(l) && (ActionOf(g, req, l).Put? || ActionOf(g, req, l).Refuse?)
  }

  lemma OrderHas(g: Graph, req: Request, open: set<TypeId>, o: Object, l: Location)
    requires g.Valid() && o in g.typ && l in Order(g, req, open, o)
    ensures Acts(g, req, l)
    decreases |g.fields.Keys - open|, 0
  {
    Shrinks(g, open, o);
    OrderFromHas(g, req, open + {g.typ[o]}, o, 0, l);
  }

  lemma OrderFromHas(g: Graph, req: Request, open: set<TypeId>, o: Object, i: nat, l: Location)
    requires g.Valid() && o in g.typ && i <= |g.fields[g.typ[o]]| && l in OrderFrom(g, req, open, o, i)
    ensures Acts(g, req, l)
    decreases |g.fields.Keys - open|, |g.fields[g.typ[o]]| - i + 1
  {
    hide OrderFrom, Order;
    NoField(g, req, open, o);
    FieldOrLater(g, req, open, o, i, l);
    if l in OrderFrom(g, req, open, o, i + 1) {
      OrderFromHas(g, req, open, o, i + 1, l);
    } else {
      var a := ActionOf(g, req, (o, i));
      if a.Into? {
        OrderHas(g, req, open, a.o, l);
      }
    }
  }

  lemma {:induction false} PerformAppend(g: Graph, req: Request,
                                         a: seq<Location>, b: seq<Location>, mem: map<Location, Value>)
    requires (forall l | l in a :: g.Has(l)) && forall l | l in b :: g.Has(l)
    ensures var r := Perform(g, req, a, mem);
            Perform(g, req, a + b, mem) == if r.error.Some? then r else Perform(g, req, b, r.mem)
  {
    if a == [] {
      assert a + b == b;
    } else {
      assert (a + b)[1..] == a[1..] + b;
      match ActionOf(g, req, a[0])
      case Put(v) => PerformAppend(g, req, a[1..], b, mem[a[0] := v]);
      case Refuse(e) =>
      case _ => PerformAppend(g, req, a[1..], b, mem);
    }
  }

  /** Binding an object, as a whole. */
  ghost function Binding(g: Graph, req: Request, open: set<TypeId>, o: Object, mem: map<Location, Value>): Result
    requires g.Valid() && o in g.typ
  {
    forall l | l in Order(g, req, open, o) ensures g.Has(l) { OrderHas(g, req, open, o, l); }
    Perform(g, req, Order(g, req, open, o), mem)
  }

  /** Binding the fields of an object from the i-th on. */
  ghost function BindingFrom(g: Graph, req: Request, open: set<TypeId>, o: Object, i: nat,
                             mem: map<Location, Value>): Result
    requires g.Valid() && o in g.typ && i <= |g.fields[g.typ[o]]|
  {
    forall l | l in OrderFrom(g, req, open, o, i) ensures g.Has(l) { OrderFromHas(g, req, open, o, i, l); }
    Perform(g, req, OrderFrom(g, req, open, o, i), mem)
  }

  lemma BindingStep(g: Graph, req: Request, open: set<TypeId>, o: Object, i: nat, mem: map<Location, Value>)
    requires g.Valid() && o in g.typ && i < |g.fields[g.typ[o]]|
    ensures BindingFrom(g, req, open, o, i, mem) ==
            match ActionOf(g, req, (o, i))
            case Into(c) =>
              var r := Binding(g, req, open, c, mem);
              if r.error.Some? then r else BindingFrom(g, req, open, o, i + 1, r.mem)
            case Put(v) => BindingFrom(g, req, open, o, i + 1, mem[(o, i) := v])
            case Refuse(e) => Result(mem, Some(e))
            case Skip => BindingFrom(g, req, open, o, i + 1, mem)
  {
    var a := match ActionOf(g, req, (o, i)) case Into(c) => Order(g, req, open, c) case Skip => [] case _ => [(o, i)];
    var b := OrderFrom(g, req, open, o, i + 1);
    assert OrderFrom(g, req, open, o, i) == a + b;
    forall l | l in a + b ensures g.Has(l) { OrderFromHas(g, req, open, o, i, l); }
    hide Order, OrderFrom;
    PerformAppend(g, req, a, b, mem);
  }

  // ---- the binder ---------------------------------------------------------------------------

  class Binder {
    const g: Graph
    const req: Request
    var mem: map<Location, Value>
    var visited: set<TypeId>

    constructor (g: Graph, req: Request, mem: map<Location, Value>)
      ensures this.g == g && this.req == req && this.mem == mem && visited == {}
    {
      this.g, this.req, this.mem, visited := g, req, mem, {};
    }

    /** One leaf: its tag, its texts, its kind. */
    method BindLeaf(l: Location) returns (err: Option<Error>)
      requires g.Has(l)
      requires g.At(l).exported && g.At(l).tag != "-" && !g.At(l).kind.Struct? && !g.At(l).kind.PointerTo?
      modifies this`mem
      ensures match ActionOf(g, req, l)
              case Put(v) => err == None && mem == old(mem)[l := v]
              case Refuse(e) => err == Some(e) && mem == old(mem)
              case _ => err == None && mem == old(mem)
    {
      var tag := g.At(l).tag;
      if tag == "" {
        return None;
      }
      var default := "";
      var idx := Comma(tag);
      assert idx == |tag| ==> tag[..idx] == tag;
      if idx < |tag| {
        var rest := tag[idx + 1..];
        tag := tag[..idx];
        if HasPrefix(rest, DEFAULT) {
          default := rest[|DEFAULT|..];
        }
        if tag == "" || tag == "-" {
          return None;
        }
      }
      assert tag == TagName(g.At(l).tag) && default == TagDefault(g.At(l).tag);
      var vals := if tag in req.values then req.values[tag] else [];
      if vals == [] {
        if default != "" {
          vals := [default];
        } else {
          return None;
        }
      }
      assert vals == Texts(g.At(l).tag, req);
      var parsed: Parsed;
      match g.At(l).kind {
        case String => parsed := Parsed(Text(vals[0]));
        case Int => parsed := ParseInt(vals[0]);
        case Uint => parsed := ParseUint(vals[0]);
        case Float =>
          var r := req.parseFloat(vals[0]);
          parsed := if r.Some? then Parsed(Real(r.value)) else Failed(NotFloat(vals[0]));
        case Bool => parsed := ParseBool(vals[0]);
        case Strings => parsed := Parsed(List(vals));
        case OtherSlice => parsed := Failed(SliceOfOthers);
        case _ => parsed := Failed(UnsupportedKind);
      }
      if parsed.Failed? {
        return Some(parsed.error);
      }
      mem := mem[l := parsed.value];
      return None;
    }

    /** bindValuesRec on a non-nil pointer. It terminates on every graph, cyclic ones included, and gives
        `visited` back as it found it. */
    method Bind(o: Object) returns (err: Option<Error>)
      requires g.Valid() && o in g.typ
      modifies this
      ensures visited == old(visited)
      ensures Result(mem, err) == Binding(g, req, old(visited), o, old(mem))
      decreases |g.fields.Keys - visited|
    {
      var t := g.typ[o];
      if t in visited {
        return None;
      }
      ghost var open := visited + {t};
      Shrinks(g, visited, o);
      visited := visited + {t};
      var fields := g.fields[t];
      for i := 0 to |fields|
        invariant visited == open
        invariant Binding(g, req, old(visited), o, old(mem)) == BindingFrom(g, req, open, o, i, mem)
      {
        BindingStep(g, req, open, o, i, mem);
        hide Binding, BindingFrom;
        var f := fields[i];
        if !f.exported || f.tag == "-" {
          continue;
        }
        if f.kind.Struct? || f.kind.PointerTo? {
          if (o, i) !in g.next {
            continue;
          }
          err := Bind(g.next[(o, i)]);
          if err.Some? {
            visited := visited - {t};
            return;
          }
          continue;
        }
        err := BindLeaf((o, i));
        if err.Some? {
          visited := visited - {t};
          return;
        }
      }
      visited := visited - {t};
      return None;
    }
  }

  // ---- which leaves are bound ---------------------------------------------------------------

  /** A field of `o` that binding follows leads to `c`. */
  ghost predicate Leads(g: Graph, o: Object, c: Object) {
    exists i: nat :: LeadsBy(g, o, i, c)
  }

  predicate LeadsBy(g: Graph, o: Object, i: nat, c: Object) {
    && g.Has((o, i))
    && g.At((o, i)).exported && g.At((o, i)).tag != "-"
    && (g.At((o, i)).kind.Struct? || g.At((o, i)).kind.PointerTo?)
    && (o, i) in g.next && g.next[(o, i)] == c
  }

  /** A path on which no struct type repeats, and none is in `open`. */
  ghost predicate SimplePath(g: Graph, open: set<TypeId>, os: seq<Object>) {
    && os != []
    && (forall k | 0 <= k < |os| :: os[k] in g.typ && g.typ[os[k]] !in open)
    && (forall j, k | 0 <= j < k < |os| :: g.typ[os[j]] != g.typ[os[k]])
    && (forall k | 0 < k < |os| :: Leads(g, os[k - 1], os[k]))
  }

  ghost predicate Reached(g: Graph, open: set<TypeId>, o: Object, x: Object) {
    exists os :: SimplePath(g, open, os) && os[0] == o && os[|os| - 1] == x
  }

  lemma ReachedStep(g: Graph, open: set<TypeId>, o: Object, c: Object, x: Object)
    requires g.Valid() && o in g.typ && g.typ[o] !in open
    requires Leads(g, o, c) && Reached(g, open + {g.typ[o]}, c, x)
    ensures Reached(g, open, o, x)
  {
    var os :| SimplePath(g, open + {g.typ[o]}, os) && os[0] == c && os[|os| - 1] == x;
    var all := [o] + os;
    assert forall k | 0 < k < |all| :: all[k] == os[k - 1];
    forall k | 0 < k < |all| ensures Leads(g, all[k - 1], all[k]) {
      if k > 1 { assert all[k - 1] == os[k - 2]; }
    }
    assert SimplePath(g, open, all);
  }

  lemma ReachedSplit(g: Graph, open: set<TypeId>, o: Object, x: Object) returns (i: nat)
    requires g.Valid() && o in g.typ && Reached(g, open, o, x) && x != o
    ensures g.typ[o] !in open && i < |g.fields[g.typ[o]]| && (o, i) in g.next && LeadsBy(g, o, i, g.next[(o, i)])
    ensures Reached(g, open + {g.typ[o]}, g.next[(o, i)], x)
  {
    var os :| SimplePath(g, open, os) && os[0] == o && os[|os| - 1] == x;
    assert Leads(g, os[0], os[1]);
    i :| LeadsBy(g, o, i, os[1]);
    var tail := os[1..];
    forall k | 0 < k < |tail| ensures Leads(g, tail[k - 1], tail[k]) {
      assert tail[k - 1] == os[k] && tail[k] == os[k + 1];
    }
    assert SimplePath(g, open + {g.typ[o]}, tail);
  }

  lemma {:induction false} InSomeField(g: Graph, req: Request, open: set<TypeId>, o: Object, i: nat, l: Location)
    returns (j: nat)
    requires g.Valid() && o in g.typ && i <= |g.fields[g.typ[o]]| && l in OrderFrom(g, req, open, o, i)
    ensures j < |g.fields[g.typ[o]]| && InField(g, req, open, o, j, l)
    decreases |g.fields[g.typ[o]]| - i
  {
    hide OrderFrom, InField;
    NoField(g, req, open, o);
    FieldOrLater(g, req, open, o, i, l);
    if l in OrderFrom(g, req, open, o, i + 1) {
      j := InSomeField(g, req, open, o, i + 1, l);
    } else {
      j := i;
    }
  }

  lemma {:induction false} FieldInOrder(g: Graph, req: Request, open: set<TypeId>, o: Object, i: nat,
                                        j: nat, l: Location)
    requires g.Valid() && o in g.typ && i <= j < |g.fields[g.typ[o]]| && InField(g, req, open, o, j, l)
    ensures l in OrderFrom(g, req, open, o, i)
    decreases j - i
  {
    hide OrderFrom, InField;
    FieldOrLater(g, req, open, o, i, l);
    if i < j {
      FieldInOrder(g, req, open, o, i + 1, j, l);
    }
  }

  lemma {:induction false} OrderIsReached(g: Graph, req: Request, open: set<TypeId>, o: Object, l: Location)
    requires g.Valid() && o in g.typ && l in Order(g, req, open, o)
    ensures Reached(g, open, o, l.0)
    decreases |g.fields.Keys - open|
  {
    Shrinks(g, open, o);
    var inner := open + {g.typ[o]};
    var j := InSomeField(g, req, inner, o, 0, l);
    var a := ActionOf(g, req, (o, j));
    if a.Into? {
      OrderIsReached(g, req, inner, a.o, l);
      assert LeadsBy(g, o, j, a.o);
      ReachedStep(g, open, o, a.o, l.0);
    } else {
      assert SimplePath(g, open, [o]);
    }
  }

  lemma {:induction false} ReachedIsOrdered(g: Graph, req: Request, open: set<TypeId>, o: Object, l: Location)
    requires g.Valid() && o in g.typ && Reached(g, open, o, l.0) && Acts(g, req, l)
    ensures l in Order(g, req, open, o)
    decreases |g.fields.Keys - open|
  {
    if l.0 == o {
      assert g.typ[o] !in open by {
        var os :| SimplePath(g, open, os) && os[0] == o && os[|os| - 1] == l.0;
        assert os[0] == o;
      }
      assert l == (o, l.1);
      FieldInOrder(g, req, open + {g.typ[o]}, o, 0, l.1, l);
    } else {
      var i := ReachedSplit(g, open, o, l.0);
      Shrinks(g, open, o);
      ReachedIsOrdered(g, req, open + {g.typ[o]}, g.next[(o, i)], l);
      FieldInOrder(g, req, open + {g.typ[o]}, o, 0, i, l);
    }
  }

  // ---- what binding leaves behind -----------------------------------------------------------

  ghost predicate Refused(g: Graph, req: Request, l: Location) {
    g.Leaf(l) && ActionOf(g, req, l).Refuse?
  }

  /** The content of a location once its leaf has been bound. */
  function Filled(g: Graph, req: Request, l: Location, mem: map<Location, Value>): Value
    requires g.Leaf(l) && l in mem
  {
    match ActionOf(g, req, l) case Put(v) => v case _ => mem[l]
  }

  lemma {:induction false} PerformIs(g: Graph, req: Request, locs: seq<Location>,
                                     mem: map<Location, Value>, l: Location)
    requires (forall x | x in locs :: g.Has(x)) && forall x | x in locs :: Acts(g, req, x) && x in mem
    requires g.Leaf(l) && l in mem
    ensures var r := Perform(g, req, locs, mem);
            && r.mem.Keys == mem.Keys
            && (r.error.None? ==> r.mem[l] == if l in locs then Filled(g, req, l, mem) else mem[l])
            && (r.mem[l] == mem[l] || (l in locs && r.mem[l] == Filled(g, req, l, mem)))
            && (r.error.None? && l in locs ==> !Refused(g, req, l))
  {
    if locs != [] {
      assert locs == [locs[0]] + locs[1..];
      var a := ActionOf(g, req, locs[0]);
      assert Acts(g, req, locs[0]);
      assert l in locs <==> l == locs[0] || l in locs[1..];
      if a.Put? {
        PerformIs(g, req, locs[1..], mem[locs[0] := a.value], l);
      }
    }
  }

  lemma {:induction false} PerformFails(g: Graph, req: Request, locs: seq<Location>, mem: map<Location, Value>)
    returns (l: Location)
    requires (forall x | x in locs :: g.Has(x)) && Perform(g, req, locs, mem).error.Some?
    ensures l in locs && ActionOf(g, req, l) == Refuse(Perform(g, req, locs, mem).error.value)
  {
    match ActionOf(g, req, locs[0])
    case Put(v) => l := PerformFails(g, req, locs[1..], mem[locs[0] := v]);
    case Refuse(e) => l := locs[0];
    case _ => l := PerformFails(g, req, locs[1..], mem);
  }

  /** Every leaf of the graph has a content. */
  ghost predicate Holds(g: Graph, mem: map<Location, Value>) {
    forall l | g.Leaf(l) :: l in mem
  }

  /** On success every leaf on a path without repeated types holds its value if the request or its default
      gives it one, and every other content is as it was. */
  lemma BindsExactly(g: Graph, req: Request, o: Object, mem: map<Location, Value>, l: Location)
    requires g.Valid() && o in g.typ && Holds(g, mem) && g.Leaf(l)
    requires Binding(g, req, {}, o, mem).error.None?
    ensures var r := Binding(g, req, {}, o, mem);
            && r.mem.Keys == mem.Keys
            && r.mem[l] == if Reached(g, {}, o, l.0) then Filled(g, req, l, mem) else mem[l]
  {
    var locs := Order(g, req, {}, o);
    forall x | x in locs ensures Acts(g, req, x) { OrderHas(g, req, {}, o, x); }
    PerformIs(g, req, locs, mem, l);
    if l in locs {
      OrderIsReached(g, req, {}, o, l);
    } else if Reached(g, {}, o, l.0) && Acts(g, req, l) {
      ReachedIsOrdered(g, req, {}, o, l);
    }
  }

  /** Binding fails if and only if some leaf on such a path is refused; the error is that of such a leaf, and
      the leaves bound before it keep their new values. */
  lemma FailsIff(g: Graph, req: Request, o: Object, mem: map<Location, Value>)
    requires g.Valid() && o in g.typ && Holds(g, mem)
    ensures var r := Binding(g, req, {}, o, mem);
            && (r.error.Some? <==> exists l: Location :: Reached(g, {}, o, l.0) && Refused(g, req, l))
            && (r.error.Some? ==> exists l: Location ::
                  Reached(g, {}, o, l.0) && Refused(g, req, l) && ActionOf(g, req, l).error == r.error.value)
            && r.mem.Keys == mem.Keys
            && forall l | g.Leaf(l) && r.mem[l] != mem[l] ::
                  Reached(g, {}, o, l.0) && r.mem[l] == Filled(g, req, l, mem)
  {
    var locs := Order(g, req, {}, o);
    var r := Binding(g, req, {}, o, mem);
    forall x | x in locs ensures Acts(g, req, x) && Reached(g, {}, o, x.0) {
      OrderHas(g, req, {}, o, x);
      OrderIsReached(g, req, {}, o, x);
    }
    hide Order, Reached;
    assert o in g.typ;
    if r.error.Some? {
      var l := PerformFails(g, req, locs, mem);
      assert Refused(g, req, l) && Reached(g, {}, o, l.0);
    }
    forall l | g.Leaf(l)
      ensures r.mem.Keys == mem.Keys
      ensures r.error.None? && l in locs ==> !Refused(g, req, l)
      ensures r.mem[l] == mem[l] || (l in locs && r.mem[l] == Filled(g, req, l, mem))
    {
      PerformIs(g, req, locs, mem, l);
    }
    forall l: Location | Reached(g, {}, o, l.0) && Refused(g, req, l) ensures l in locs {
      ReachedIsOrdered(g, req, {}, o, l);
    }
  }

  /** Two fields of one type are both bound, whatever was bound before: the set of open types is per path. */
  lemma SiblingsBound(g: Graph, o: Object, a: Object, b: Object)
    requires g.Valid() && o in g.typ && a in g.typ && b in g.typ
    requires Leads(g, o, a) && Leads(g, o, b) && g.typ[a] == g.typ[b] != g.typ[o]
    ensures Reached(g, {}, o, a) && Reached(g, {}, o, b)
  {
    assert SimplePath(g, {}, [o, a]);
    assert SimplePath(g, {}, [o, b]);
  }

  // ---- where binding stops ------------------------------------------------------------------

  /** Below a field nothing of an object whose type is being bound is touched. */
  lemma OpenUntouched(g: Graph, req: Request, open: set<TypeId>, c: Object, mem: map<Location, Value>, l: Location)
    requires g.Valid() && c in g.typ && Holds(g, mem) && g.Leaf(l) && g.typ[l.0] in open
    ensures var r := Binding(g, req, open, c, mem); r.mem.Keys == mem.Keys && r.mem[l] == mem[l]
  {
    var locs := Order(g, req, open, c);
    forall x | x in locs ensures Acts(g, req, x) { OrderHas(g, req, open, c, x); }
    PerformIs(g, req, locs, mem, l);
    if l in locs {
      OrderIsReached(g, req, open, c, l);
      ReachedFree(g, open, c, l.0);
      assert false;
    }
  }

  lemma ReachedFree(g: Graph, open: set<TypeId>, o: Object, x: Object)
    requires Reached(g, open, o, x)
    ensures x in g.typ && g.typ[x] !in open
  {
    var os :| SimplePath(g, open, os) && os[0] == o && os[|os| - 1] == x;
    assert g.typ[os[|os| - 1]] !in open;
  }

  lemma ActionFacts(g: Graph, req: Request, l: Location)
    requires g.Valid() && g.Has(l)
    ensures var a := ActionOf(g, req, l);
            (a.Into? ==> a.o in g.typ) && (Refused(g, req, l) ==> a.Refuse?)
  {}

  /** A refused leaf stops the binding: the object's fields behind it keep their content. */
  lemma {:induction false} StopsFrom(g: Graph, req: Request, open: set<TypeId>, o: Object, k: nat, i: nat, j: nat,
                                     mem: map<Location, Value>)
    requires g.Valid() && o in g.typ && g.typ[o] in open && Holds(g, mem)
    requires k <= i < j && g.Leaf((o, i)) && g.Leaf((o, j)) && Refused(g, req, (o, i))
    ensures var r := BindingFrom(g, req, open, o, k, mem);
            r.error.Some? && (o, j) in r.mem && r.mem[(o, j)] == mem[(o, j)]
    decreases i - k
  {
    hide Binding, BindingFrom, ActionOf, Refused;
    BindingStep(g, req, open, o, k, mem);
    ActionFacts(g, req, (o, i));
    ActionFacts(g, req, (o, k));
    if k < i {
      match ActionOf(g, req, (o, k))
      case Into(c) =>
        OpenUntouched(g, req, open, c, mem, (o, j));
        StopsFrom(g, req, open, o, k + 1, i, j, Binding(g, req, open, c, mem).mem);
      case Put(v) => StopsFrom(g, req, open, o, k + 1, i, j, mem[(o, k) := v]);
      case Refuse(e) =>
      case Skip => StopsFrom(g, req, open, o, k + 1, i, j, mem);
    }
  }

  /** Later fields leave a leaf of the object alone. */
  lemma {:induction false} KeepsFrom(g: Graph, req: Request, open: set<TypeId>, o: Object, k: nat, i: nat,
                                     mem: map<Location, Value>)
    requires g.Valid() && o in g.typ && g.typ[o] in open && Holds(g, mem)
    requires i < k <= |g.fields[g.typ[o]]| && g.Leaf((o, i))
    ensures var r := BindingFrom(g, req, open, o, k, mem); (o, i) in r.mem && r.mem[(o, i)] == mem[(o, i)]
    decreases |g.fields[g.typ[o]]| - k
  {
    if k < |g.fields[g.typ[o]]| {
      hide Binding, BindingFrom, ActionOf;
      BindingStep(g, req, open, o, k, mem);
      ActionFacts(g, req, (o, k));
      match ActionOf(g, req, (o, k))
      case Into(c) =>
        OpenUntouched(g, req, open, c, mem, (o, i));
        KeepsFrom(g, req, open, o, k + 1, i, Binding(g, req, open, c, mem).mem);
      case Put(v) => KeepsFrom(g, req, open, o, k + 1, i, mem[(o, k) := v]);
      case Refuse(e) =>
      case Skip => KeepsFrom(g, req, open, o, k + 1, i, mem);
    } else {
      NoField(g, req, open, o);
    }
  }

  /** No leaf below the object's fields is refused but its own j-th. */
  ghost predicate OnlyRefused(g: Graph, req: Request, open: set<TypeId>, o: Object, j: nat) {
    forall l: Location | Reached(g, open, o, l.0) && Refused(g, req, l) :: l == (o, j)
  }

  lemma BelowBinds(g: Graph, req: Request, open: set<TypeId>, o: Object, k: nat, j: nat, mem: map<Location, Value>)
    requires g.Valid() && o in g.typ && g.typ[o] !in open && Holds(g, mem) && g.Has((o, k))
    requires OnlyRefused(g, req, open, o, j) && ActionOf(g, req, (o, k)).Into?
    ensures Binding(g, req, open + {g.typ[o]}, ActionOf(g, req, (o, k)).o, mem).error.None?
  {
    var inner, c := open + {g.typ[o]}, ActionOf(g, req, (o, k)).o;
    var locs := Order(g, req, inner, c);
    forall x | x in locs ensures g.Has(x) { OrderHas(g, req, inner, c, x); }
    if Binding(g, req, inner, c, mem).error.Some? {
      var l := PerformFails(g, req, locs, mem);
      OrderHas(g, req, inner, c, l);
      OrderIsReached(g, req, inner, c, l);
      assert LeadsBy(g, o, k, c);
      ReachedStep(g, open, o, c, l.0);
      ReachedFree(g, inner, c, l.0);
      assert Refused(g, req, l) && l != (o, j);
      assert false;
    }
  }

  /** The fields of the object before its refused one are bound. */
  lemma {:induction false} BindsBefore(g: Graph, req: Request, open: set<TypeId>, o: Object, k: nat, i: nat, j: nat,
                                       mem: map<Location, Value>)
    requires g.Valid() && o in g.typ && g.typ[o] !in open && Holds(g, mem)
    requires k <= i < j && g.Leaf((o, i)) && g.Leaf((o, j)) && OnlyRefused(g, req, open, o, j)
    requires Reached(g, open, o, o)
    ensures var r := BindingFrom(g, req, open + {g.typ[o]}, o, k, mem);
            (o, i) in r.mem && r.mem[(o, i)] == Filled(g, req, (o, i), mem)
    decreases i - k
  {
    hide Binding, BindingFrom, Reached;
    var inner := open + {g.typ[o]};
    BindingStep(g, req, inner, o, k, mem);
    var a := ActionOf(g, req, (o, k));
    if a.Refuse? {
      OwnLeaf(g, req, (o, k));
      assert false;
    } else if k == i {
      KeepsFrom(g, req, inner, o, k + 1, i, if a.Put? then mem[(o, k) := a.value] else mem);
    } else if a.Into? {
      BelowBinds(g, req, open, o, k, j, mem);
      OpenUntouched(g, req, inner, a.o, mem, (o, i));
      BindsBefore(g, req, open, o, k + 1, i, j, Binding(g, req, inner, a.o, mem).mem);
    } else {
      BindsBefore(g, req, open, o, k + 1, i, j, if a.Put? then mem[(o, k) := a.value] else mem);
    }
  }

  lemma OwnLeaf(g: Graph, req: Request, l: Location)
    requires g.Has(l) && ActionOf(g, req, l).Refuse?
    ensures g.Leaf(l)
  {}

  /** A refused leaf of the target stops the binding where it stands in the declaration: fields declared behind
      it keep their content, and if nothing else is refused those before it hold their new values and the
      error is its own. */
  lemma RefusalStops(g: Graph, req: Request, o: Object, mem: map<Location, Value>, j: nat, x: nat)
    requires g.Valid() && o in g.typ && Holds(g, mem) && g.Leaf((o, j)) && g.Leaf((o, x)) && Refused(g, req, (o, j))
    ensures var r := Binding(g, req, {}, o, mem);
            && r.error.Some? && (o, x) in r.mem
            && (x > j ==> r.mem[(o, x)] == mem[(o, x)])
            && (x < j && OnlyRefused(g, req, {}, o, j) ==>
                  && r.mem[(o, x)] == Filled(g, req, (o, x), mem)
                  && r.error.value == ActionOf(g, req, (o, j)).error)
  {
    assert SimplePath(g, {}, [o]);
    assert {} + {g.typ[o]} == {g.typ[o]};
    BindingUnfolds(g, req, o, mem);
    FailsIff(g, req, o, mem);
    hide Binding, BindingFrom;
    if x > j {
      StopsFrom(g, req, {g.typ[o]}, o, 0, j, x, mem);
    } else if x < j && OnlyRefused(g, req, {}, o, j) {
      BindsBefore(g, req, {}, o, 0, x, j, mem);
    }
  }

  lemma BindingUnfolds(g: Graph, req: Request, o: Object, mem: map<Location, Value>)
    requires g.Valid() && o in g.typ
    ensures Binding(g, req, {}, o, mem) == BindingFrom(g, req, {g.typ[o]}, o, 0, mem)
    ensures Reached(g, {}, o, o)
  {
    assert {} + {g.typ[o]} == {g.typ[o]};
    assert SimplePath(g, {}, [o]);
  }

  // ---- what a leaf takes --------------------------------------------------------------------

  /** An exported leaf tagged with a name and perhaps a default. */
  ghost predicate Tagged(g: Graph, l: Location, name: string, default: string) {
    && g.Leaf(l) && g.At(l).exported
    && name != "" && name != "-" && ',' !in name
    && (g.At(l).tag == name + ",default=" + default || (g.At(l).tag == name && default == ""))
  }

  /** The first value of the name, or the default, or nothing at all. */
  ghost predicate TakesFirst(req: Request, name: string, default: string, first: string) {
    if name in req.values && req.values[name] != [] then first == req.values[name][0]
    else first == default != ""
  }

  ghost predicate TakesDefault(req: Request, name: string, default: string) {
    (name in req.values ==> req.values[name] == []) && default != ""
  }

  ghost predicate TakesNothing(req: Request, name: string, default: string) {
    (name in req.values ==> req.values[name] == []) && default == ""
  }

  /** There is no digit, or something else than digits behind the sign, if a sign is allowed. */
  ghost predicate NoNumeral(t: string, signed: bool) {
    || t == "" || (signed && (t == "+" || t == "-"))
    || exists i :: 0 <= i < |t| && !('0' <= t[i] <= '9') && (i > 0 || !signed || (t[0] != '+' && t[0] != '-'))
  }

  /** The value a leaf of this kind takes from its first text; None where it is refused. Numbers are those
      whose decimal spelling the text is. */
  ghost predicate Means(kind: Kind, req: Request, first: string, v: Option<Value>) {
    match kind
    case String => v == Some(Text(first))
    case Int =>
      && (forall n | first == Decimal(n) ::
            v == if -0x8000_0000_0000_0000 <= n < 0x8000_0000_0000_0000 then Some(Signed(n)) else None)
      && (forall n | n >= 0 && first == "+" + Decimal(n) ::
            v == if n < 0x8000_0000_0000_0000 then Some(Signed(n)) else None)
      && (NoNumeral(first, true) ==> v == None)
    case Uint =>
      && (forall n | first == Decimal(n) ::
            v == if 0 <= n < 0x1_0000_0000_0000_0000 then Some(Unsigned(n)) else None)
      && (NoNumeral(first, false) ==> v == None)
    case Float => v == (match req.parseFloat(first) case Some(r) => Some(Real(r)) case None => None)
    case Bool =>
      v == (if first in ["1", "t", "T", "true", "True", "TRUE"] then Some(Truth(true))
            else if first in ["0", "f", "F", "false", "False", "FALSE"] then Some(Truth(false))
            else None)
    case Strings => v.Some? && v.value.List? && v.value.texts != [] && v.value.texts[0] == first
    case _ => v == None
  }

  lemma NumeralsOnly(t: string)
    ensures NoNumeral(t, true) ==> ParseInt(t) == Failed(NotNumber(t))
    ensures NoNumeral(t, false) ==> ParseUint(t) == Failed(NotNumber(t))
  {
    if i :| 0 <= i < |t| && !('0' <= t[i] <= '9') {
      assert t[i] in t;
    }
    if t != "" {
      var body := t[1..];
      forall i | 0 < i < |t| ensures t[i] in body {
        assert body[i - 1] == t[i];
      }
    }
  }

  lemma PlusSign(n: nat)
    ensures ParseInt("+" + Decimal(n)) ==
            if n <= MAX_INT64 then Parsed(Signed(n)) else Failed(NotNumber("+" + Decimal(n)))
  {
    DigitsRead(n);
    assert ("+" + Decimal(n))[1..] == Decimal(n);
  }

  lemma IntMeans(req: Request, first: string)
    ensures Means(Int, req, first, match ParseInt(first) case Parsed(v) => Some(v) case Failed(_) => None)
  {
    NumeralsOnly(first);
    hide ParseInt, ParseUint, NoNumeral;
    forall n | first == Decimal(n)
      ensures ParseInt(first) ==
              if -MAX_INT64 - 1 <= n <= MAX_INT64 then Parsed(Signed(n)) else Failed(NotNumber(first))
    {
      NumbersBind(n);
    }
    forall n: nat | first == "+" + Decimal(n)
      ensures ParseInt(first) == if n <= MAX_INT64 then Parsed(Signed(n)) else Failed(NotNumber(first))
    {
      PlusSign(n);
    }
  }

  lemma UintMeans(req: Request, first: string)
    ensures Means(Uint, req, first, match ParseUint(first) case Parsed(v) => Some(v) case Failed(_) => None)
  {
    NumeralsOnly(first);
    hide ParseInt, ParseUint, NoNumeral;
    forall n | first == Decimal(n)
      ensures ParseUint(first) == if 0 <= n <= MAX_UINT64 then Parsed(Unsigned(n)) else Failed(NotNumber(first))
    {
      NumbersBind(n);
    }
  }

  lemma ParsedMeans(kind: Kind, req: Request, texts: seq<string>)
    requires texts != []
    ensures Means(kind, req, texts[0], match Parse(kind, texts, req) case Parsed(v) => Some(v) case Failed(_) => None)
    ensures kind.Strings? ==> Parse(kind, texts, req) == Parsed(List(texts))
  {
    if kind.Int? {
      hide Means, ParseInt;
      IntMeans(req, texts[0]);
    } else if kind.Uint? {
      hide Means, ParseUint;
      UintMeans(req, texts[0]);
    } else {
      OthersMean(kind, req, texts);
    }
  }

  lemma OthersMean(kind: Kind, req: Request, texts: seq<string>)
    requires texts != [] && !kind.Int? && !kind.Uint?
    ensures Means(kind, req, texts[0], match Parse(kind, texts, req) case Parsed(v) => Some(v) case Failed(_) => None)
  {
    hide ParseInt, ParseUint, NoNumeral;
  }

  lemma TaggedTexts(g: Graph, req: Request, l: Location, name: string, default: string)
    requires Tagged(g, l, name, default)
    ensures TagName(g.At(l).tag) == name && g.At(l).tag != "-"
    ensures Texts(g.At(l).tag, req) ==
            if name in req.values && req.values[name] != [] then req.values[name]
            else if default != "" then [default] else []
  {
    TagRoundTrip(name, default);
    hide TagName, TagDefault;
    var tag := name + "," + DEFAULT + default;
    assert "," + DEFAULT == ",default=" && tag == name + ",default=" + default;
    assert tag[|name|] == ',';
  }

  /** What a reached leaf with a tag holds after a successful binding, said of the request's values and the
      tag alone: what the first value of its name means, or its default, or what it held before if there is
      neither; a list of strings holds all values in order. */
  lemma LeafHolds(g: Graph, req: Request, o: Object, mem: map<Location, Value>, l: Location, name: string,
                  default: string)
    requires g.Valid() && o in g.typ && Holds(g, mem) && Reached(g, {}, o, l.0) && Tagged(g, l, name, default)
    requires Binding(g, req, {}, o, mem).error.None?
    ensures var r := Binding(g, req, {}, o, mem);
            && l in r.mem
            && (TakesNothing(req, name, default) ==> r.mem[l] == mem[l])
            && (forall first | TakesFirst(req, name, default, first) ::
                  Means(g.At(l).kind, req, first, Some(r.mem[l])))
            && (g.At(l).kind.Strings? && name in req.values && req.values[name] != [] ==>
                  r.mem[l] == List(req.values[name]))
            && (g.At(l).kind.Strings? && TakesDefault(req, name, default) ==> r.mem[l] == List([default]))
  {
    hide Binding, Reached, Means, Parse, Texts;
    BindsExactly(g, req, o, mem, l);
    FailsIff(g, req, o, mem);
    assert !Refused(g, req, l);
    LeafTakes(g, req, l, mem, name, default);
  }

  lemma LeafTakes(g: Graph, req: Request, l: Location, mem: map<Location, Value>, name: string, default: string)
    requires g.Has(l) && l in mem && Tagged(g, l, name, default) && !Refused(g, req, l)
    ensures var v := Filled(g, req, l, mem);
            && (TakesNothing(req, name, default) ==> v == mem[l])
            && (forall first | TakesFirst(req, name, default, first) :: Means(g.At(l).kind, req, first, Some(v)))
            && (g.At(l).kind.Strings? && name in req.values && req.values[name] != [] ==> v == List(req.values[name]))
            && (g.At(l).kind.Strings? && TakesDefault(req, name, default) ==> v == List([default]))
  {
    hide Means, Parse, Texts;
    TaggedTexts(g, req, l, name, default);
    var texts := Texts(g.At(l).tag, req);
    if texts != [] {
      ParsedMeans(g.At(l).kind, req, texts);
    }
  }

  /** A leaf that is not exported, or has no name in its tag, or "-" for a name, keeps its content. */
  lemma LeafIgnored(g: Graph, req: Request, o: Object, mem: map<Location, Value>, l: Location)
    requires g.Valid() && o in g.typ && Holds(g, mem) && g.Leaf(l)
    requires var tag := g.At(l).tag;
             !g.At(l).exported || tag == "" || tag == "-" || tag[0] == ',' || HasPrefix(tag, "-,")
    requires Binding(g, req, {}, o, mem).error.None?
    ensures var r := Binding(g, req, {}, o, mem); l in r.mem && r.mem[l] == mem[l]
  {
    hide Binding, Reached;
    BindsExactly(g, req, o, mem, l);
    var tag := g.At(l).tag;
    if HasPrefix(tag, "-,") {
      CommaAfter("-", tag[1..]);
      assert tag[1] == tag[..2][1] == ',' && tag == "-" + tag[1..];
    }
  }

  /** A reached leaf whose first text means nothing to its kind makes the binding fail. */
  lemma LeafRefuses(g: Graph, req: Request, o: Object, mem: map<Location, Value>, l: Location, name: string,
                    default: string, first: string)
    requires g.Valid() && o in g.typ && Holds(g, mem) && Reached(g, {}, o, l.0) && Tagged(g, l, name, default)
    requires TakesFirst(req, name, default, first) && forall v :: !Means(g.At(l).kind, req, first, Some(v))
    ensures Binding(g, req, {}, o, mem).error.Some?
  {
    hide Binding, Reached, Means, Parse;
    FailsIff(g, req, o, mem);
    TaggedTexts(g, req, l, name, default);
    ParsedMeans(g.At(l).kind, req, Texts(g.At(l).tag, req));
    assert Refused(g, req, l);
  }

  // ---- the entry point ----------------------------------------------------------------------

  /** What the caller passes: something that is no pointer, a nil pointer, a pointer to an object of the
      graph, or a pointer to a value that is no struct, on which reflection panics. */
  datatype Target = NotAPointer | Nil | To(o: Object) | ToOther

  datatype Outcome = Bound | Rejected(error: Error) | Panics

  /** bindValues: from an empty set of open types. */
  method BindValues(g: Graph, req: Request, target: Target, mem: map<Location, Value>)
    returns (outcome: Outcome, after: map<Location, Value>)
    requires g.Valid() && Holds(g, mem) && (target.To? ==> target.o in g.typ)
    ensures target.NotAPointer? || target.Nil? ==> outcome == Rejected(NotPointerToObject) && after == mem
    ensures target.ToOther? ==> outcome == Panics && after == mem
    ensures target.To? ==> after.Keys == mem.Keys && !outcome.Panics?
    ensures target.To? ==> (outcome.Bound? <==>
              forall l: Location | Reached(g, {}, target.o, l.0) :: !Refused(g, req, l))
    ensures target.To? && outcome.Bound? ==>
              forall l | g.Leaf(l) :: after[l] ==
                if Reached(g, {}, target.o, l.0) then Filled(g, req, l, mem) else mem[l]
    ensures target.To? && outcome.Rejected? ==>
              exists l: Location ::
                Reached(g, {}, target.o, l.0) && Refused(g, req, l) && ActionOf(g, req, l).error == outcome.error
  {
    match target
    case NotAPointer => return Rejected(NotPointerToObject), mem;
    case Nil => return Rejected(NotPointerToObject), mem;
    case ToOther => return Panics, mem;
    case To(o) =>
      var b := new Binder(g, req, mem);
      var err := b.Bind(o);
      FailsIff(g, req, o, mem);
      hide Reached, Filled, Holds, Binding, Refused;
      if err.None? {
        forall l | g.Leaf(l)
          ensures b.mem[l] == if Reached(g, {}, o, l.0) then Filled(g, req, l, mem) else mem[l]
        {
          BindsExactly(g, req, o, mem, l);
        }
      }
      return if err.Some? then Rejected(err.value) else Bound, b.mem;
  }
}

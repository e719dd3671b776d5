/**
  Protocol clusters of src/main_config.rs: expanding a cluster string to tokens, collecting them in
  a set of components, validating the set and printing it again.
 */
module Cluster {
  import opened Bytes
  import opened ClusterText
  import W = ClusterWords

  datatype Inbound =
    | Vless | Shadowsocks2022 | ShadowsocksAead | Trojan | Hysteria2 | Tuic | Vmess | Naive | Snell

  datatype TlsLayer = Reality | AnyTls | Tls

  datatype Framing = WebSocket | HttpUpgrade | Grpc | Xhttp

  datatype HysteriaObfs = Gecko | Salamander

  /** What `add` makes of a token string. */
  datatype Token =
    | In(inbound: Inbound) | Layer(layer: TlsLayer) | Frame(framing: Framing) | Obfs(obfs: HysteriaObfs)
    | Vision | Raw | Unknown

  datatype Components = Components(
    inbound: Option<Inbound>, layer: Option<TlsLayer>, framing: Option<Framing>, vision: bool, obfs: Option<HysteriaObfs>)

  const EMPTY := Components(None, None, None, false, None)

  // ---- strings to tokens ----

  function Classify(token: W.Word): Token {
    match token
    case Vless => In(Vless)
    case Reality => Layer(Reality)
    case AnyTls => Layer(AnyTls)
    case Tls => Layer(Tls)
    case Vision => Vision
    case WebSocket => Frame(WebSocket)
    case Ws => Frame(WebSocket)
    case HttpUpgrade => Frame(HttpUpgrade)
    case Grpc => Frame(Grpc)
    case Xhttp => Frame(Xhttp)
    case Shadowsocks2022 => In(Shadowsocks2022)
    case ShadowsocksAead => In(ShadowsocksAead)
    case Shadowsocks => In(ShadowsocksAead)
    case Trojan => In(Trojan)
    case Hysteria2 => In(Hysteria2)
    case Tuic => In(Tuic)
    case Vmess => In(Vmess)
    case Naive => In(Naive)
    case Snell => In(Snell)
    case Gecko => Obfs(Gecko)
    case Salamander => Obfs(Salamander)
    case Raw => Raw
    case Tcp => Raw
    case _ => Unknown
  }

  datatype Lookup = Refused | Tokens(tokens: seq<Token>) | NotPreset

  function Preset(name: W.Word): Lookup {
    match name
    case FlclashStealth => Refused
    case AnyTlsReality => Refused
    case RealityAnyTls => Refused
    case Reality => Tokens([In(Vless), Layer(Reality), Vision])
    case RealityVision => Tokens([In(Vless), Layer(Reality), Vision])
    case AnyTls => Tokens([In(Vless), Layer(AnyTls), Vision])
    case AnyTlsVision => Tokens([In(Vless), Layer(AnyTls), Vision])
    case TlsVision => Tokens([In(Vless), Layer(Tls), Vision])
    case WsTcp => Tokens([In(Vless), Frame(WebSocket)])
    case WebSocket => Tokens([In(Vless), Frame(WebSocket)])
    case HttpUpgrade => Tokens([In(Vless), Frame(HttpUpgrade)])
    case Grpc => Tokens([In(Vless), Frame(Grpc)])
    case Xhttp => Tokens([In(Vless), Frame(Xhttp)])
    case Hysteria2 => Tokens([In(Hysteria2), Obfs(Gecko)])
    case Hysteria2Gecko => Tokens([In(Hysteria2), Obfs(Gecko)])
    case Hysteria2Salamander => Tokens([In(Hysteria2), Obfs(Salamander)])
    case Shadowsocks => Tokens([In(Shadowsocks2022)])
    case Shadowsocks2022 => Tokens([In(Shadowsocks2022)])
    case ShadowsocksAead => Tokens([In(ShadowsocksAead)])
    case TrojanTls => Tokens([In(Trojan)])
    case Tuic => Tokens([In(Tuic)])
    case Vmess => Tokens([In(Vmess)])
    case Naive => Tokens([In(Naive)])
    case Snell => Tokens([In(Snell)])
    case VlessRaw => Tokens([In(Vless)])
    case _ => NotPreset
  }

  /** How strings are read as names; the parser uses `ClusterWords.Recognise`. */
  type Names = string -> W.Word

  /** `expand_cluster`; `None` is its error. */
  function Expand(names: Names, cluster: string): Option<seq<Token>>
    decreases |cluster|, 2, 0
  {
    ExpandText(names, Normalise(cluster), |cluster|)
  }

  /** The same for a text already normalised. */
  function ExpandText(names: Names, n: string, bound: nat): Option<seq<Token>>
    requires |n| <= bound
    decreases bound, 1, 0
  {
    match Preset(names(n))
    case Refused => None
    case Tokens(tokens) => Some(tokens)
    case NotPreset =>
      if ',' in n then ExpandItems(names, Items(n, ','), bound)
      else if '+' in n then ExpandItems(names, Items(n, '+'), bound)
      else Some([Classify(names(n))])
  }

  /** The expansions of the items joined, unless one fails. */
  function ExpandItems(names: Names, items: seq<string>, bound: nat): Option<seq<Token>>
    requires forall x :: x in items ==> |x| < bound
    decreases bound, 0, |items|
  {
    if items == [] then Some([])
    else
      assert items[0] in items;
      var first := Expand(names, items[0]);
      var rest := ExpandItems(names, items[1..], bound);
      if first.None? || rest.None? then None else Some(first.value + rest.value)
  }

  // ---- tokens to components ----

  /** `add` with its setters: a slot can be set again only to what it holds. */
  function Add(c: Components, t: Token): Option<Components> {
    match t
    case In(i) => if c.inbound.Some? && c.inbound.value != i then None else Some(c.(inbound := Some(i)))
    case Layer(l) => if c.layer.Some? && c.layer.value != l then None else Some(c.(layer := Some(l)))
    case Frame(f) => if c.framing.Some? && c.framing.value != f then None else Some(c.(framing := Some(f)))
    case Obfs(o) => if c.obfs.Some? && c.obfs.value != o then None else Some(c.(obfs := Some(o)))
    case Vision => Some(c.(vision := true))
    case Raw => Some(c)
    case Unknown => None
  }

  function AddAll(ts: seq<Token>): Option<Components> {
    if ts == [] then Some(EMPTY)
    else
      var before := AddAll(ts[..|ts| - 1]);
      if before.None? then None else Add(before.value, ts[|ts| - 1])
  }

  function Validate(c: Components): Option<Components> {
    var transport := c.layer.Some? || c.framing.Some? || c.vision;
    if transport && c.inbound.Some? && c.inbound.value != Vless then None
    else
      var d := if transport then c.(inbound := Some(Vless)) else c;
      if d.inbound.None? then None
      else if d.inbound.value != Vless then
        if d.obfs.Some? && d.inbound.value != Hysteria2 then None
        else if d.inbound.value == Hysteria2 && d.obfs.None? then Some(d.(obfs := Some(Gecko)))
        else Some(d)
      else if d.obfs.Some? || (d.layer.Some? && d.framing.Some?) || (d.vision && d.layer.None?) then None
      else Some(d)
  }

  function Parse(names: Names, cluster: string): Option<Components> {
    var ts := Expand(names, cluster);
    if ts.None? then None
    else
      var c := AddAll(ts.value);
      if c.None? then None else Validate(c.value)
  }

  // ---- collecting is independent of order ----

  /** Two tokens that want the same slot for different things. */
  predicate Clash(a: Token, b: Token) {
    a != b && ((a.In? && b.In?) || (a.Layer? && b.Layer?) || (a.Frame? && b.Frame?) || (a.Obfs? && b.Obfs?))
  }

  ghost predicate Compatible(ts: seq<Token>) {
    Unknown !in ts && forall a, b :: a in ts && b in ts ==> !Clash(a, b)
  }

  /** The components say exactly which tokens there are. */
  ghost predicate Matches(c: Components, ts: seq<Token>) {
    && (forall i :: In(i) in ts <==> c.inbound == Some(i))
    && (forall l :: Layer(l) in ts <==> c.layer == Some(l))
    && (forall f :: Frame(f) in ts <==> c.framing == Some(f))
    && (forall o :: Obfs(o) in ts <==> c.obfs == Some(o))
    && (Vision in ts <==> c.vision)
  }

  lemma {:induction false} AddExact(c: Components, before: seq<Token>, t: Token)
    requires Compatible(before) && Matches(c, before)
    ensures Add(c, t).Some? <==> Compatible(before + [t])
    ensures Add(c, t).Some? ==> Matches(Add(c, t).value, before + [t])
  {
    var ts := before + [t];
    assert forall x :: x in ts <==> x in before || x == t;
    if Add(c, t).None? {
      assert t in ts;
      match t {
        case In(i) => assert In(c.inbound.value) in ts && Clash(t, In(c.inbound.value));
        case Layer(l) => assert Layer(c.layer.value) in ts && Clash(t, Layer(c.layer.value));
        case Frame(f) => assert Frame(c.framing.value) in ts && Clash(t, Frame(c.framing.value));
        case Obfs(o) => assert Obfs(c.obfs.value) in ts && Clash(t, Obfs(c.obfs.value));
        case Unknown =>
      }
    }
  }

  lemma {:induction false} AddAllExact(ts: seq<Token>)
    ensures AddAll(ts).Some? <==> Compatible(ts)
    ensures AddAll(ts).Some? ==> Matches(AddAll(ts).value, ts)
    decreases |ts|
  {
    if ts != [] {
      var before, t := ts[..|ts| - 1], ts[|ts| - 1];
      assert ts == before + [t];
      AddAllExact(before);
      if Compatible(before) {
        AddExact(AddAll(before).value, before, t);
      } else {
        assert forall x :: x in before ==> x in ts;
      }
    }
  }

  lemma {:induction false} MatchesUnique(c: Components, d: Components, ts: seq<Token>)
    requires Matches(c, ts) && Matches(d, ts)
    ensures c == d
  {
    assert c.inbound.Some? ==> In(c.inbound.value) in ts;
    assert d.inbound.Some? ==> In(d.inbound.value) in ts;
    assert c.layer.Some? ==> Layer(c.layer.value) in ts;
    assert d.layer.Some? ==> Layer(d.layer.value) in ts;
    assert c.framing.Some? ==> Frame(c.framing.value) in ts;
    assert d.framing.Some? ==> Frame(d.framing.value) in ts;
    assert c.obfs.Some? ==> Obfs(c.obfs.value) in ts;
    assert d.obfs.Some? ==> Obfs(d.obfs.value) in ts;
  }

  /** Collecting depends only on which tokens occur. */
  lemma {:induction false} AddAllSameSet(a: seq<Token>, b: seq<Token>)
    requires forall t :: t in a <==> t in b
    ensures AddAll(a) == AddAll(b)
  {
    AddAllExact(a);
    AddAllExact(b);
    if AddAll(a).Some? {
      MatchesUnique(AddAll(a).value, AddAll(b).value, a);
    }
  }

  // ---- expanding by items ----

  lemma {:induction false} BoundIrrelevant(names: Names, items: seq<string>, a: nat, b: nat)
    requires forall x :: x in items ==> |x| < a && |x| < b
    ensures ExpandItems(names, items, a) == ExpandItems(names, items, b)
  {
    if items != [] {
      assert items == [items[0]] + items[1..];
      BoundIrrelevant(names, items[1..], a, b);
    }
  }

  /** `t` is a token of the expansion of some item. */
  ghost predicate FromSome(names: Names, items: seq<string>, t: Token) {
    exists x :: x in items && Expand(names, x).Some? && t in Expand(names, x).value
  }

  lemma {:induction false} ExpandItemsSucceeds(names: Names, items: seq<string>, bound: nat)
    requires forall x :: x in items ==> |x| < bound
    ensures ExpandItems(names, items, bound).Some? <==> forall x :: x in items ==> Expand(names, x).Some?
  {
    if items != [] {
      var first, rest := items[0], items[1..];
      assert items == [first] + rest;
      ExpandItemsSucceeds(names, rest, bound);
      if ExpandItems(names, items, bound).Some? {
        forall x | x in items ensures Expand(names, x).Some? {
          assert x == first || x in rest;
        }
      } else if Expand(names, first).None? {
        assert first in items;
      } else {
        var x :| x in rest && Expand(names, x).None?;
        assert x in items;
      }
    }
  }

  lemma {:induction false} FromSomeStep(names: Names, first: string, rest: seq<string>, t: Token)
    ensures FromSome(names, [first] + rest, t) <==>
            (Expand(names, first).Some? && t in Expand(names, first).value) || FromSome(names, rest, t)
  {
    var items := [first] + rest;
    assert forall x :: x in items <==> x == first || x in rest;
  }

  lemma {:induction false} ExpandItemsTokens(names: Names, items: seq<string>, bound: nat, t: Token)
    requires (forall x :: x in items ==> |x| < bound) && ExpandItems(names, items, bound).Some?
    ensures t in ExpandItems(names, items, bound).value <==> FromSome(names, items, t)
  {
    if items != [] {
      assert items == [items[0]] + items[1..];
      ExpandItemsTokens(names, items[1..], bound, t);
      FromSomeStep(names, items[0], items[1..], t);
    }
  }

  lemma {:induction false} ExpandItemsExact(names: Names, items: seq<string>, bound: nat)
    requires forall x :: x in items ==> |x| < bound
    ensures ExpandItems(names, items, bound).Some? <==> forall x :: x in items ==> Expand(names, x).Some?
    ensures ExpandItems(names, items, bound).Some? ==>
              forall t :: t in ExpandItems(names, items, bound).value <==> FromSome(names, items, t)
  {
    ExpandItemsSucceeds(names, items, bound);
    if ExpandItems(names, items, bound).Some? {
      forall t ensures t in ExpandItems(names, items, bound).value <==> FromSome(names, items, t) {
        ExpandItemsTokens(names, items, bound, t);
      }
    }
  }

  lemma {:induction false} TextBoundIrrelevant(names: Names, n: string, a: nat, b: nat)
    requires |n| <= a && |n| <= b
    ensures ExpandText(names, n, a) == ExpandText(names, n, b)
  {
    if ',' in n {
      BoundIrrelevant(names, Items(n, ','), a, b);
    } else if '+' in n {
      BoundIrrelevant(names, Items(n, '+'), a, b);
    }
  }

  lemma {:induction false} ExpandNormalised(names: Names, s: string)
    ensures Expand(names, Normalise(s)) == Expand(names, s)
  {
    NormaliseNormal(s);
    NormalStays(Normalise(s));
    TextBoundIrrelevant(names, Normalise(s), |Normalise(s)|, |s|);
  }

  /** Names have no comma in them and are not empty. */
  ghost predicate Plausible(names: Names) {
    (forall n :: ',' in n ==> names(n).Other?) && names("").Other?
  }

  function CommaItems(cluster: string): seq<string> {
    Items(Normalise(cluster), ',')
  }

  /** The expansion of `s` is that of its items, in some order. */
  ghost predicate ExpandsTo(names: Names, expanded: Option<seq<Token>>, items: seq<string>) {
    && (expanded.Some? <==> forall x :: x in items ==> Expand(names, x).Some?)
    && (expanded.Some? ==> forall t :: t in expanded.value <==> FromSome(names, items, t))
  }

  lemma {:induction false} ExpandOne(names: Names, n: string)
    ensures ExpandsTo(names, Expand(names, n), [n])
  {
    assert forall x :: x in [n] <==> x == n;
  }

  lemma {:induction false} ExpandTextList(names: Names, n: string, bound: nat)
    requires names(n).Other? && ',' in n && |n| <= bound
    ensures ExpandText(names, n, bound) == ExpandItems(names, Items(n, ','), bound)
  {
    OtherIsNoPreset(names(n));
  }

  lemma {:induction false} OtherIsNoPreset(w: W.Word)
    requires w.Other?
    ensures Preset(w) == NotPreset
  {
  }

  lemma {:induction false} ExpandList(names: Names, s: string)
    requires Plausible(names) && ',' in Normalise(s)
    ensures Expand(names, s) == ExpandItems(names, CommaItems(s), |s|)
  {
    ExpandTextList(names, Normalise(s), |s|);
  }

  lemma {:induction false} ExpandByItems(names: Names, s: string)
    requires Plausible(names) && CommaItems(s) != []
    ensures ExpandsTo(names, Expand(names, s), CommaItems(s))
  {
    if ',' in Normalise(s) {
      ExpandList(names, s);
      ExpandItemsExact(names, CommaItems(s), |s|);
    } else {
      SingleItem(s);
      ExpandNormalised(names, s);
      ExpandOne(names, Normalise(s));
    }
  }

  lemma {:induction false} SingleItem(s: string)
    requires ',' !in Normalise(s)
    ensures CommaItems(s) == if Normalise(s) == "" then [] else [Normalise(s)]
  {
    NormaliseNormal(s);
    NoSeparator(Normalise(s), ',');
  }

  lemma {:induction false} EmptyTextUnknown(names: Names, bound: nat)
    requires names("").Other?
    ensures ExpandText(names, "", bound) == Some([Unknown])
  {
  }

  lemma {:induction false} NoItemsNoParse(names: Names, s: string)
    requires Plausible(names) && CommaItems(s) == []
    ensures Parse(names, s) == None
  {
    if ',' in Normalise(s) {
      ExpandList(names, s);
      assert Expand(names, s) == Some([]);
    } else {
      SingleItem(s);
      EmptyTextUnknown(names, |s|);
      assert Expand(names, s) == Some([Unknown]);
      AddOne(Unknown);
    }
  }

  lemma {:induction false} HasMember(items: seq<string>)
    requires items != []
    ensures exists x :: x in items
  {
    assert items[0] in items;
  }

  lemma {:induction false} SameItemsSameTokens(names: Names, s: string, t: string, k: Token)
    requires forall x :: x in CommaItems(s) <==> x in CommaItems(t)
    ensures FromSome(names, CommaItems(s), k) <==> FromSome(names, CommaItems(t), k)
  {
  }

  lemma {:induction false} SameItemsSameParse(names: Names, s: string, t: string)
    requires Plausible(names) && CommaItems(s) != [] && CommaItems(t) != []
    requires forall x :: x in CommaItems(s) <==> x in CommaItems(t)
    ensures Parse(names, s) == Parse(names, t)
  {
    ExpandByItems(names, s);
    ExpandByItems(names, t);
    if Expand(names, s).Some? {
      var a, b := Expand(names, s).value, Expand(names, t).value;
      forall k ensures k in a <==> k in b {
        SameItemsSameTokens(names, s, t, k);
      }
      AddAllSameSet(a, b);
    }
  }

  /**
    Success and result depend only on which comma-separated items occur, not on their order, their
    repetition, empty items or letter case.
   */
  lemma {:induction false} OrderIrrelevant(names: Names, s: string, t: string)
    requires Plausible(names)
    requires forall x :: x in CommaItems(s) <==> x in CommaItems(t)
    ensures Parse(names, s) == Parse(names, t)
  {
    if CommaItems(s) == [] {
      if CommaItems(t) != [] {
        HasMember(CommaItems(t));
        assert false;
      }
      NoItemsNoParse(names, s);
      NoItemsNoParse(names, t);
    } else {
      assert CommaItems(s)[0] in CommaItems(s);
      SameItemsSameParse(names, s, t);
    }
  }

  // ---- what an expansion can contain ----

  ghost predicate Sane(ts: seq<Token>) {
    Layer(Reality) in ts || Layer(AnyTls) in ts ==> Vision in ts
  }

  lemma {:induction false} PresetSane(w: W.Word)
    ensures Preset(w).Tokens? ==> Sane(Preset(w).tokens)
    ensures Preset(w).NotPreset? ==> Sane([Classify(w)])
  {
  }

  /** REALITY and AnyTLS never come without Vision. */
  lemma {:induction false} ExpandSane(names: Names, cluster: string)
    requires Expand(names, cluster).Some?
    ensures Sane(Expand(names, cluster).value)
    decreases |cluster|, 1, 0
  {
    var n := Normalise(cluster);
    PresetSane(names(n));
    if Preset(names(n)).NotPreset? {
      if ',' in n {
        ItemsSane(names, Items(n, ','), |cluster|);
      } else if '+' in n {
        ItemsSane(names, Items(n, '+'), |cluster|);
      }
    }
  }

  lemma {:induction false} ItemsSane(names: Names, items: seq<string>, bound: nat)
    requires forall x :: x in items ==> |x| < bound
    requires ExpandItems(names, items, bound).Some?
    ensures Sane(ExpandItems(names, items, bound).value)
    decreases bound, 0, |items|
  {
    if items != [] {
      assert items == [items[0]] + items[1..];
      ExpandSane(names, items[0]);
      ItemsSane(names, items[1..], bound);
    }
  }

  // ---- printing and parsing again ----

  /** What validation admits of sane tokens. */
  ghost predicate ValidSet(c: Components) {
    && c.inbound.Some?
    && if c.inbound.value == Vless then
         && c.obfs.None? && !(c.layer.Some? && c.framing.Some?) && (c.vision ==> c.layer.Some?)
         && (c.layer == Some(Reality) || c.layer == Some(AnyTls) ==> c.vision)
       else
         && c.layer.None? && c.framing.None? && !c.vision
         && (c.obfs.Some? <==> c.inbound.value == Hysteria2)
  }

  lemma {:induction false} ParsedIsValid(names: Names, cluster: string)
    requires Parse(names, cluster).Some?
    ensures ValidSet(Parse(names, cluster).value)
  {
    ExpandSane(names, cluster);
    var ts := Expand(names, cluster).value;
    AddAllExact(ts);
    var c := AddAll(ts).value;
    assert Layer(Reality) in ts <==> c.layer == Some(Reality);
    assert Layer(AnyTls) in ts <==> c.layer == Some(AnyTls);
  }

  function Canonical(c: Components): string
    requires c.inbound.Some?
  {
    match c.inbound.value
    case Shadowsocks2022 => "shadowsocks-2022"
    case ShadowsocksAead => "shadowsocks-aead"
    case Trojan => "trojan-tls"
    case Hysteria2 => if c.obfs == Some(Salamander) then "hysteria2-salamander" else "hysteria2-gecko"
    case Tuic => "tuic"
    case Vmess => "vmess"
    case Naive => "naive"
    case Snell => "snell"
    case Vless =>
      match c.framing
      case Some(WebSocket) => "ws-tcp"
      case Some(HttpUpgrade) => "httpupgrade"
      case Some(Grpc) => "grpc"
      case Some(Xhttp) => "xhttp"
      case None => LayerName(c.layer, c.vision)
  }

  /** The TLS layer and Vision joined by a hyphen. */
  function LayerName(layer: Option<TlsLayer>, vision: bool): string {
    var first := match layer
                 case None => []
                 case Some(Reality) => ["reality"]
                 case Some(AnyTls) => ["anytls"]
                 case Some(Tls) => ["tls"];
    var parts := if vision then first + ["vision"] else first;
    if parts == [] then "vless-raw" else Join(parts)
  }

  function Join(parts: seq<string>): string
    requires parts != []
  {
    if |parts| == 1 then parts[0] else parts[0] + "-" + Join(parts[1..])
  }

  // ---- reading the printed names ----

  function TokensOf(w: W.Word): Option<seq<Token>> {
    match Preset(w)
    case Refused => None
    case Tokens(ts) => Some(ts)
    case NotPreset => Some([Classify(w)])
  }

  lemma {:induction false} ExpandName(names: Names, s: string)
    requires Normal(s) && ',' !in s && '+' !in s
    ensures Expand(names, s) == TokensOf(names(s))
  {
    NormalStays(s);
  }

  lemma {:induction false} ExpandSpelling(w: W.Word)
    requires !w.Other?
    ensures Expand(W.Recognise, W.Spelling(w)) == TokensOf(w)
  {
    W.SpellingRecognised(w);
    W.NameTextIsNormal(W.Spelling(w));
    ExpandName(W.Recognise, W.Spelling(w));
  }

  lemma {:induction false} AddOne(a: Token)
    ensures AddAll([a]) == Add(EMPTY, a)
  {
    assert [a][..0] == [];
  }

  lemma {:induction false} AddTwo(a: Token, b: Token)
    requires Add(EMPTY, a).Some?
    ensures AddAll([a, b]) == Add(Add(EMPTY, a).value, b)
  {
    assert [a, b][..1] == [a];
    AddOne(a);
  }

  lemma {:induction false} AddThree(a: Token, b: Token, c: Token)
    requires Add(EMPTY, a).Some? && Add(Add(EMPTY, a).value, b).Some?
    ensures AddAll([a, b, c]) == Add(Add(Add(EMPTY, a).value, b).value, c)
  {
    assert [a, b, c][..2] == [a, b];
    AddTwo(a, b);
  }

  /** The name of each valid set. */
  function CanonicalWord(c: Components): (w: W.Word)
    requires c.inbound.Some?
    ensures !w.Other?
  {
    match c.inbound.value
    case Shadowsocks2022 => W.Shadowsocks2022
    case ShadowsocksAead => W.ShadowsocksAead
    case Trojan => W.TrojanTls
    case Hysteria2 => if c.obfs == Some(Salamander) then W.Hysteria2Salamander else W.Hysteria2Gecko
    case Tuic => W.Tuic
    case Vmess => W.Vmess
    case Naive => W.Naive
    case Snell => W.Snell
    case Vless =>
      match (c.framing, c.layer)
      case (Some(WebSocket), _) => W.WsTcp
      case (Some(HttpUpgrade), _) => W.HttpUpgrade
      case (Some(Grpc), _) => W.Grpc
      case (Some(Xhttp), _) => W.Xhttp
      case (None, Some(Reality)) => W.RealityVision
      case (None, Some(AnyTls)) => W.AnyTlsVision
      case (None, Some(Tls)) => if c.vision then W.TlsVision else W.Tls
      case (None, None) => W.VlessRaw
  }

  lemma {:induction false} JoinTwo(a: string, b: string)
    ensures Join([a] + [b]) == a + "-" + b
  {
    assert ([a] + [b])[1..] == [b];
  }

  lemma {:induction false} LayerNames()
    ensures LayerName(Some(Reality), true) == "reality-vision" && LayerName(Some(AnyTls), true) == "anytls-vision"
  {
    JoinTwo("reality", "vision");
    assert "reality" + "-" + "vision" == "reality-vision";
    JoinTwo("anytls", "vision");
    assert "anytls" + "-" + "vision" == "anytls-vision";
  }

  lemma {:induction false} TlsNames()
    ensures LayerName(Some(Tls), true) == "tls-vision" && LayerName(Some(Tls), false) == "tls"
    ensures LayerName(None, false) == "vless-raw"
  {
    JoinTwo("tls", "vision");
    assert "tls" + "-" + "vision" == "tls-vision";
  }

  lemma {:induction false} VlessIsSpelling(c: Components)
    requires ValidSet(c) && c.inbound == Some(Vless) && c.framing.None?
    ensures Canonical(c) == W.Spelling(CanonicalWord(c))
  {
    LayerNames();
    TlsNames();
  }

  lemma {:induction false} FramingIsSpelling(c: Components)
    requires ValidSet(c) && c.inbound == Some(Vless) && c.framing.Some?
    ensures Canonical(c) == W.Spelling(CanonicalWord(c))
  {
  }

  lemma {:induction false} OtherIsSpelling(c: Components)
    requires ValidSet(c) && c.inbound != Some(Vless)
    ensures Canonical(c) == W.Spelling(CanonicalWord(c))
  {
  }

  lemma {:induction false} CanonicalIsSpelling(c: Components)
    requires ValidSet(c)
    ensures Canonical(c) == W.Spelling(CanonicalWord(c))
  {
    if c.inbound != Some(Vless) {
      OtherIsSpelling(c);
    } else if c.framing.Some? {
      FramingIsSpelling(c);
    } else {
      VlessIsSpelling(c);
    }
  }

  /** Collecting and validating the tokens of a name gives the set. */
  ghost predicate Gives(w: W.Word, c: Components) {
    var ts := TokensOf(w);
    ts.Some? && AddAll(ts.value).Some? && Validate(AddAll(ts.value).value) == Some(c)
  }

  lemma {:induction false} LayerGivesSet(c: Components)
    requires ValidSet(c) && c.layer.Some?
    ensures Gives(CanonicalWord(c), c)
  {
    assert c == Components(Some(Vless), c.layer, None, c.vision, None);
    if c.vision {
      VisionTokens(c.layer.value);
      assert CanonicalWord(c) == CanonicalWord(Components(Some(Vless), Some(c.layer.value), None, true, None));
      AddThree(In(Vless), Layer(c.layer.value), Vision);
    } else {
      AddOne(Layer(Tls));
    }
  }

  lemma {:induction false} VisionTokens(l: TlsLayer)
    ensures TokensOf(CanonicalWord(Components(Some(Vless), Some(l), None, true, None))) == Some([In(Vless), Layer(l), Vision])
  {
  }

  lemma {:induction false} FramingGivesSet(c: Components)
    requires ValidSet(c) && c.framing.Some?
    ensures Gives(CanonicalWord(c), c)
  {
    assert c == Components(Some(Vless), None, c.framing, false, None);
    AddTwo(In(Vless), Frame(c.framing.value));
  }

  lemma {:induction false} HysteriaGivesSet(c: Components)
    requires ValidSet(c) && c.inbound == Some(Hysteria2)
    ensures Gives(CanonicalWord(c), c)
  {
    assert c == Components(Some(Hysteria2), None, None, false, c.obfs);
    HysteriaTokens(c.obfs.value);
    assert CanonicalWord(c) == CanonicalWord(Components(Some(Hysteria2), None, None, false, Some(c.obfs.value)));
    AddTwo(In(Hysteria2), Obfs(c.obfs.value));
  }

  lemma {:induction false} HysteriaTokens(o: HysteriaObfs)
    ensures TokensOf(CanonicalWord(Components(Some(Hysteria2), None, None, false, Some(o)))) == Some([In(Hysteria2), Obfs(o)])
  {
    assert o.Gecko? || o.Salamander?;
  }

  lemma {:induction false} BareGivesSet(c: Components)
    requires ValidSet(c) && c.layer.None? && c.framing.None? && c.inbound != Some(Hysteria2)
    ensures Gives(CanonicalWord(c), c)
  {
    assert c == Components(c.inbound, None, None, false, None);
    BareTokens(c.inbound.value);
    assert CanonicalWord(c) == CanonicalWord(Components(Some(c.inbound.value), None, None, false, None));
    AddOne(In(c.inbound.value));
  }

  lemma {:induction false} BareTokens(i: Inbound)
    requires i != Hysteria2
    ensures TokensOf(CanonicalWord(Components(Some(i), None, None, false, None))) == Some([In(i)])
  {
  }

  lemma {:induction false} WordGivesSet(c: Components)
    requires ValidSet(c)
    ensures Gives(CanonicalWord(c), c)
  {
    if c.layer.Some? {
      LayerGivesSet(c);
    } else if c.framing.Some? {
      FramingGivesSet(c);
    } else if c.inbound == Some(Hysteria2) {
      HysteriaGivesSet(c);
    } else {
      BareGivesSet(c);
    }
  }

  // ---- main results ----

  /** Parsing what is printed for a parsed cluster gives that cluster again. */
  lemma {:induction false} ParseCanonical(cluster: string)
    requires Parse(W.Recognise, cluster).Some?
    ensures var c := Parse(W.Recognise, cluster).value;
            c.inbound.Some? && Parse(W.Recognise, Canonical(c)) == Some(c)
  {
    ParsedIsValid(W.Recognise, cluster);
    var c := Parse(W.Recognise, cluster).value;
    CanonicalIsSpelling(c);
    ExpandSpelling(CanonicalWord(c));
    WordGivesSet(c);
  }

  lemma {:induction false} RecogniseIsPlausible()
    ensures Plausible(W.Recognise)
  {
    forall n | ',' in n ensures W.Recognise(n).Other? {
      if !W.Recognise(n).Other? {
        W.NameTextIsNormal(n);
      }
    }
  }

  /** Order, repetition, empty items and letter case of the comma-separated items do not matter. */
  lemma {:induction false} ParseIgnoresOrder(s: string, t: string)
    requires forall x :: x in CommaItems(s) <==> x in CommaItems(t)
    ensures Parse(W.Recognise, s) == Parse(W.Recognise, t)
  {
    RecogniseIsPlausible();
    OrderIrrelevant(W.Recognise, s, t);
  }

  /** Which table the match in `render_vless` writes; `None` is its error arm. */
  datatype Table = LayerTable(layer: TlsLayer) | FramingTable(framing: Framing) | NoTable

  function RenderedTable(c: Components): Option<Table> {
    match (c.layer, c.framing)
    case (Some(l), None) => Some(LayerTable(l))
    case (None, Some(f)) => Some(FramingTable(f))
    case (None, None) => Some(NoTable)
    case _ => None
  }

  /** A parsed VLESS cluster never reaches the error arm of the renderer. */
  lemma {:induction false} RendererCooperates(cluster: string)
    requires Parse(W.Recognise, cluster).Some? && Parse(W.Recognise, cluster).value.inbound == Some(Vless)
    ensures RenderedTable(Parse(W.Recognise, cluster).value).Some?
  {
    ParsedIsValid(W.Recognise, cluster);
  }

  // ---- the set as the program keeps it ----

  class ComponentSet {
    var inbound: Option<Inbound>
    var layer: Option<TlsLayer>
    var framing: Option<Framing>
    var vision: bool
    var obfs: Option<HysteriaObfs>

    function View(): Components
      reads this
    {
      Components(inbound, layer, framing, vision, obfs)
    }

    constructor ()
      ensures View() == EMPTY
    {
      inbound, layer, framing, vision, obfs := None, None, None, false, None;
    }

    method SetInbound(i: Inbound) returns (ok: bool)
      modifies this
      ensures (if ok then Some(View()) else None) == Add(old(View()), In(i))
    {
      if inbound.Some? && inbound.value != i {
        return false;
      }
      inbound := Some(i);
      return true;
    }

    method SetTlsLayer(l: TlsLayer) returns (ok: bool)
      modifies this
      ensures (if ok then Some(View()) else None) == Add(old(View()), Layer(l))
    {
      if layer.Some? && layer.value != l {
        return false;
      }
      layer := Some(l);
      return true;
    }

    method SetFraming(f: Framing) returns (ok: bool)
      modifies this
      ensures (if ok then Some(View()) else None) == Add(old(View()), Frame(f))
    {
      if framing.Some? && framing.value != f {
        return false;
      }
      framing := Some(f);
      return true;
    }

    method SetHysteriaObfs(o: HysteriaObfs) returns (ok: bool)
      modifies this
      ensures (if ok then Some(View()) else None) == Add(old(View()), Obfs(o))
    {
      if obfs.Some? && obfs.value != o {
        return false;
      }
      obfs := Some(o);
      return true;
    }

    method AddToken(t: Token) returns (ok: bool)
      modifies this
      ensures (if ok then Some(View()) else None) == Add(old(View()), t)
    {
      match t {
        case In(i) => ok := SetInbound(i);
        case Layer(l) => ok := SetTlsLayer(l);
        case Frame(f) => ok := SetFraming(f);
        case Obfs(o) => ok := SetHysteriaObfs(o);
        case Vision => vision, ok := true, true;
        case Raw => ok := true;
        case Unknown => ok := false;
      }
    }

    method ValidateSet() returns (ok: bool)
      modifies this
      ensures (if ok then Some(View()) else None) == Validate(old(View()))
    {
      if layer.Some? || framing.Some? || vision {
        if inbound.Some? && inbound.value != Vless {
          return false;
        }
        inbound := Some(Vless);
      }
      if inbound.None? {
        return false;
      }
      if inbound.value != Vless {
        if obfs.Some? && inbound.value != Hysteria2 {
          return false;
        }
        if inbound.value == Hysteria2 && obfs.None? {
          obfs := Some(Gecko);
        }
        return true;
      }
      return !(obfs.Some? || (layer.Some? && framing.Some?) || (vision && layer.None?));
    }
  }

  /** `ComponentSet::parse` */
  method ParseCluster(names: Names, cluster: string) returns (r: Option<Components>)
    ensures r == Parse(names, cluster)
  {
    var tokens := Expand(names, cluster);
    if tokens.None? {
      return None;
    }
    var components := new ComponentSet();
    var ts := tokens.value;
    for k := 0 to |ts|
      invariant AddAll(ts[..k]) == Some(components.View())
    {
      assert ts[..k + 1][..k] == ts[..k];
      var ok := components.AddToken(ts[k]);
      if !ok {
        FailsForGood(ts, k + 1);
        return None;
      }
    }
    assert ts[..|ts|] == ts;
    var ok := components.ValidateSet();
    r := if ok then Some(components.View()) else None;
  }

  lemma {:induction false} FailsForGood(ts: seq<Token>, k: nat)
    requires k <= |ts| && AddAll(ts[..k]).None?
    ensures AddAll(ts).None?
    decreases |ts|
  {
    if k == |ts| {
      assert ts[..k] == ts;
    } else {
      var before := ts[..|ts| - 1];
      assert before[..k] == ts[..k];
      FailsForGood(before, k);
    }
  }
}

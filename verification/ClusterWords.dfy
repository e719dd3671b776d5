/**
  The names the cluster parser of src/main_config.rs knows. Strings are compared with them here, once;
  presets and components are then given by name.
 */
module ClusterWords {
  import opened ClusterText

  datatype Word =
    | Vless | Reality | AnyTls | Tls | Vision | WebSocket | Ws | HttpUpgrade | Grpc | Xhttp | Shadowsocks2022
    | ShadowsocksAead | Shadowsocks | Trojan | Hysteria2 | Tuic | Vmess | Naive | Snell | Gecko | Salamander
    | Raw | Tcp | FlclashStealth | AnyTlsReality | RealityAnyTls | RealityVision | AnyTlsVision | TlsVision
    | WsTcp | Hysteria2Gecko | Hysteria2Salamander | TrojanTls | VlessRaw
    | Other

  function Spelling(w: Word): string
    requires !w.Other?
  {
    match w
    case Vless => "vless"
    case Reality => "reality"
    case AnyTls => "anytls"
    case Tls => "tls"
    case Vision => "vision"
    case WebSocket => "websocket"
    case Ws => "ws"
    case HttpUpgrade => "httpupgrade"
    case Grpc => "grpc"
    case Xhttp => "xhttp"
    case Shadowsocks2022 => "shadowsocks-2022"
    case ShadowsocksAead => "shadowsocks-aead"
    case Shadowsocks => "shadowsocks"
    case Trojan => "trojan"
    case Hysteria2 => "hysteria2"
    case Tuic => "tuic"
    case Vmess => "vmess"
    case Naive => "naive"
    case Snell => "snell"
    case Gecko => "gecko"
    case Salamander => "salamander"
    case Raw => "raw"
    case Tcp => "tcp"
    case FlclashStealth => "flclash-stealth"
    case AnyTlsReality => "anytls-reality"
    case RealityAnyTls => "reality-anytls"
    case RealityVision => "reality-vision"
    case AnyTlsVision => "anytls-vision"
    case TlsVision => "tls-vision"
    case WsTcp => "ws-tcp"
    case Hysteria2Gecko => "hysteria2-gecko"
    case Hysteria2Salamander => "hysteria2-salamander"
    case TrojanTls => "trojan-tls"
    case VlessRaw => "vless-raw"
  }

  /** Lower-case letters, digits and hyphens. */
  predicate IsNameChar(c: char) {
    'a' <= c <= 'z' || '0' <= c <= '9' || c == '-'
  }

  predicate IsNameText(s: string) {
    s != "" && forall i :: 0 <= i < |s| ==> IsNameChar(s[i])
  }

  lemma {:induction false} NameTextIsNormal(s: string)
    requires IsNameText(s)
    ensures Normal(s) && ',' !in s && '+' !in s
  {
  }

  /** The name spelled `n`; the comparisons are grouped by length. */
  function Recognise(n: string): (w: Word)
    ensures !w.Other? ==> n == Spelling(w) && IsNameText(n)
  {
    match |n|
    case 2 => Recognise2(n)
    case 3 => Recognise3(n)
    case 4 => Recognise4(n)
    case 5 => Recognise5(n)
    case 6 => Recognise6(n)
    case 7 => Recognise7(n)
    case 9 => Recognise9(n)
    case 10 => Recognise10(n)
    case 11 => Recognise11(n)
    case 13 => Recognise13(n)
    case 14 => Recognise14(n)
    case 15 => Recognise15(n)
    case 16 => Recognise16(n)
    case 20 => Recognise20(n)
    case _ => Other
  }

  function Recognise2(n: string): (w: Word)
    ensures !w.Other? ==> n == Spelling(w) && IsNameText(n)
  {
    if n == "ws" then Ws
    else Other
  }

  function Recognise3(n: string): (w: Word)
    ensures !w.Other? ==> n == Spelling(w) && IsNameText(n)
  {
    if n == "tls" then Tls
    else if n == "raw" then Raw
    else if n == "tcp" then Tcp
    else Other
  }

  function Recognise4(n: string): (w: Word)
    ensures !w.Other? ==> n == Spelling(w) && IsNameText(n)
  {
    if n == "grpc" then Grpc
    else if n == "tuic" then Tuic
    else Other
  }

  function Recognise5(n: string): (w: Word)
    ensures !w.Other? ==> n == Spelling(w) && IsNameText(n)
  {
    if n == "vless" then Vless
    else if n == "xhttp" then Xhttp
    else if n == "vmess" then Vmess
    else if n == "naive" then Naive
    else if n == "snell" then Snell
    else if n == "gecko" then Gecko
    else Other
  }

  function Recognise6(n: string): (w: Word)
    ensures !w.Other? ==> n == Spelling(w) && IsNameText(n)
  {
    if n == "anytls" then AnyTls
    else if n == "vision" then Vision
    else if n == "trojan" then Trojan
    else if n == "ws-tcp" then WsTcp
    else Other
  }

  function Recognise7(n: string): (w: Word)
    ensures !w.Other? ==> n == Spelling(w) && IsNameText(n)
  {
    if n == "reality" then Reality
    else Other
  }

  function Recognise9(n: string): (w: Word)
    ensures !w.Other? ==> n == Spelling(w) && IsNameText(n)
  {
    if n == "websocket" then WebSocket
    else if n == "hysteria2" then Hysteria2
    else if n == "vless-raw" then VlessRaw
    else Other
  }

  function Recognise10(n: string): (w: Word)
    ensures !w.Other? ==> n == Spelling(w) && IsNameText(n)
  {
    if n == "salamander" then Salamander
    else if n == "tls-vision" then TlsVision
    else if n == "trojan-tls" then TrojanTls
    else Other
  }

  function Recognise11(n: string): (w: Word)
    ensures !w.Other? ==> n == Spelling(w) && IsNameText(n)
  {
    if n == "httpupgrade" then HttpUpgrade
    else if n == "shadowsocks" then Shadowsocks
    else Other
  }

  function Recognise13(n: string): (w: Word)
    ensures !w.Other? ==> n == Spelling(w) && IsNameText(n)
  {
    if n == "anytls-vision" then AnyTlsVision
    else Other
  }

  function Recognise14(n: string): (w: Word)
    ensures !w.Other? ==> n == Spelling(w) && IsNameText(n)
  {
    if n == "anytls-reality" then AnyTlsReality
    else if n == "reality-anytls" then RealityAnyTls
    else if n == "reality-vision" then RealityVision
    else Other
  }

  function Recognise15(n: string): (w: Word)
    ensures !w.Other? ==> n == Spelling(w) && IsNameText(n)
  {
    if n == "flclash-stealth" then FlclashStealth
    else if n == "hysteria2-gecko" then Hysteria2Gecko
    else Other
  }

  function Recognise16(n: string): (w: Word)
    ensures !w.Other? ==> n == Spelling(w) && IsNameText(n)
  {
    if n == "shadowsocks-2022" then Shadowsocks2022
    else if n == "shadowsocks-aead" then ShadowsocksAead
    else Other
  }

  function Recognise20(n: string): (w: Word)
    ensures !w.Other? ==> n == Spelling(w) && IsNameText(n)
  {
    if n == "hysteria2-salamander" then Hysteria2Salamander
    else Other
  }

  lemma {:induction false} Spelled2(w: Word)
    requires w.Ws?
    ensures Recognise(Spelling(w)) == w
  {
    assert |Spelling(w)| == 2;
  }

  lemma {:induction false} Spelled3(w: Word)
    requires w.Tls? || w.Raw? || w.Tcp?
    ensures Recognise(Spelling(w)) == w
  {
    assert |Spelling(w)| == 3;
  }

  lemma {:induction false} Spelled4(w: Word)
    requires w.Grpc? || w.Tuic?
    ensures Recognise(Spelling(w)) == w
  {
    assert |Spelling(w)| == 4;
  }

  lemma {:induction false} Spelled5(w: Word)
    requires w.Vless? || w.Xhttp? || w.Vmess? || w.Naive? || w.Snell? || w.Gecko?
    ensures Recognise(Spelling(w)) == w
  {
    assert |Spelling(w)| == 5;
  }

  lemma {:induction false} Spelled6(w: Word)
    requires w.AnyTls? || w.Vision? || w.Trojan? || w.WsTcp?
    ensures Recognise(Spelling(w)) == w
  {
    assert |Spelling(w)| == 6;
  }

  lemma {:induction false} Spelled7(w: Word)
    requires w.Reality?
    ensures Recognise(Spelling(w)) == w
  {
    assert |Spelling(w)| == 7;
  }

  lemma {:induction false} Spelled9(w: Word)
    requires w.WebSocket? || w.Hysteria2? || w.VlessRaw?
    ensures Recognise(Spelling(w)) == w
  {
    assert |Spelling(w)| == 9;
  }

  lemma {:induction false} Spelled10(w: Word)
    requires w.Salamander? || w.TlsVision? || w.TrojanTls?
    ensures Recognise(Spelling(w)) == w
  {
    assert |Spelling(w)| == 10;
  }

  lemma {:induction false} Spelled11(w: Word)
    requires w.HttpUpgrade? || w.Shadowsocks?
    ensures Recognise(Spelling(w)) == w
  {
    assert |Spelling(w)| == 11;
  }

  lemma {:induction false} Spelled13(w: Word)
    requires w.AnyTlsVision?
    ensures Recognise(Spelling(w)) == w
  {
    assert |Spelling(w)| == 13;
  }

  lemma {:induction false} Spelled14(w: Word)
    requires w.AnyTlsReality? || w.RealityAnyTls? || w.RealityVision?
    ensures Recognise(Spelling(w)) == w
  {
    assert |Spelling(w)| == 14;
  }

  lemma {:induction false} Spelled15(w: Word)
    requires w.FlclashStealth? || w.Hysteria2Gecko?
    ensures Recognise(Spelling(w)) == w
  {
    assert |Spelling(w)| == 15;
  }

  lemma {:induction false} Spelled16(w: Word)
    requires w.Shadowsocks2022? || w.ShadowsocksAead?
    ensures Recognise(Spelling(w)) == w
  {
    assert |Spelling(w)| == 16;
  }

  lemma {:induction false} Spelled20(w: Word)
    requires w.Hysteria2Salamander?
    ensures Recognise(Spelling(w)) == w
  {
    assert |Spelling(w)| == 20;
  }

  /** Every name is recognised from its spelling. */
  lemma {:induction false} SpellingRecognised(w: Word)
    requires !w.Other?
    ensures Recognise(Spelling(w)) == w
  {
    match w {
      case Ws => Spelled2(w);
      case Tls | Raw | Tcp => Spelled3(w);
      case Grpc | Tuic => Spelled4(w);
      case Vless | Xhttp | Vmess | Naive | Snell | Gecko => Spelled5(w);
      case AnyTls | Vision | Trojan | WsTcp => Spelled6(w);
      case Reality => Spelled7(w);
      case WebSocket | Hysteria2 | VlessRaw => Spelled9(w);
      case Salamander | TlsVision | TrojanTls => Spelled10(w);
      case HttpUpgrade | Shadowsocks => Spelled11(w);
      case AnyTlsVision => Spelled13(w);
      case AnyTlsReality | RealityAnyTls | RealityVision => Spelled14(w);
      case FlclashStealth | Hysteria2Gecko => Spelled15(w);
      case Shadowsocks2022 | ShadowsocksAead => Spelled16(w);
      case Hysteria2Salamander => Spelled20(w);
    }
  }
}

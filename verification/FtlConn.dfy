/**
 An FTL control connection (ingest/ftl/ftl.go and ingest/ftl/handler.go): a challenge, a
 CONNECT that answers it, eight settings, and a dot that starts publishing.

 A command line comes with what the outside world adds to handling it: the random bytes of a
 nonce, CheckUser's verdict and whether the replies could be written.
 */
module FtlConn {
  import opened Bytes
  import opened Wrappers

  /** The states of a connection, in the order of the source's constants. */
  datatype Phase = New | Unauth | Config | Live {
    function Rank(): nat {
      match this
      case New => 0
      case Unauth => 1
      case Config => 2
      case Live => 3
    }
  }

  /** Who a channel belongs to; what is in it does not matter here. */
  type Auth = string

  datatype Settings = Settings(video: bool, audio: bool, vcodec: string, acodec: string,
                               vpayload: nat, apayload: nat, vssrc: nat, assrc: nat)

  const NO_SETTINGS := Settings(false, false, "", "", 0, 0, 0, 0)

  datatype ConnState = ConnState(phase: Phase, nonce: Option<seq<Byte>>, auth: Option<Auth>, settings: Settings)

  datatype World = World(random: Option<seq<Byte>>, verdict: Option<Auth>, writes: bool, flushes: bool)

  /** One line, split into words; no words at all is the empty line. */
  datatype Line = Line(words: seq<string>, world: World)

  /** Handled, or the connection ends: cleanly, or with an error. */
  datatype Result = Handled | Disconnected | Refused

  /** What reaches the rest of the system: a question to CheckUser, and a call of Publish. */
  datatype Effect =
    | Nothing
    | Checked(channel: string, nonce: Option<seq<Byte>>, digest: seq<Byte>, verdict: Option<Auth>)
    | Published(auth: Option<Auth>, settings: Settings)

  // ---------------------------------------------------------------- words

  function DigitValue(c: char): Option<nat> {
    if '0' <= c <= '9' then Some((c as int) - ('0' as int)) else None
  }

  /** The decimal value of a string of digits. */
  function Decimal(s: string): Option<nat> {
    if s == "" then Some(0)
    else
      match (Decimal(s[..|s| - 1]), DigitValue(s[|s| - 1]))
      case (Some(n), Some(d)) => Some(10 * n + d)
      case (_, _) => None
  }

  /** strconv.ParseUint in base ten, for values below `limit`. */
  function ParseUint(s: string, limit: nat): (r: Option<nat>)
    ensures r.Some? ==> r.value < limit
  {
    if s == "" then None
    else
      match Decimal(s)
      case Some(n) => if n < limit then Some(n) else None
      case None => None
  }

  function HexValue(c: char): (r: Option<Byte>)
    ensures r.Some? ==> r.value < 16
  {
    if '0' <= c <= '9' then Some((c as int) - ('0' as int))
    else if 'a' <= c <= 'f' then Some((c as int) - ('a' as int) + 10)
    else if 'A' <= c <= 'F' then Some((c as int) - ('A' as int) + 10)
    else None
  }

  /** hex.DecodeString. */
  function DecodeHex(s: string): Option<seq<Byte>> {
    if s == "" then Some([])
    else if |s| == 1 then None
    else
      match (HexValue(s[0]), HexValue(s[1]), DecodeHex(s[2..]))
      case (Some(h), Some(l), Some(rest)) => Some([h * 16 + l] + rest)
      case (_, _, _) => None
  }

  /** The digest of a CONNECT line, which may be written with a dollar sign in front. */
  function Digest(word: string): Option<seq<Byte>> {
    DecodeHex(if "$" <= word then word[1..] else word)
  }

  function HexDigit(n: nat): char
    requires n < 16
  {
    if n < 10 then (n + '0' as int) as char else (n - 10 + 'a' as int) as char
  }

  /** The %x format, in which the nonce of a challenge is written. */
  function Hex(bs: seq<Byte>): string {
    if bs == [] then "" else [HexDigit(bs[0] / 16), HexDigit(bs[0] % 16)] + Hex(bs[1..])
  }

  lemma {:induction false} HexDigitValue(n: nat)
    requires n < 16
    ensures HexValue(HexDigit(n)) == Some(n) && HexDigit(n) != '$'
  {
  }

  lemma {:induction false} HexDecodes(bs: seq<Byte>)
    ensures DecodeHex(Hex(bs)) == Some(bs)
  {
    if bs != [] {
      var b, rest := bs[0], bs[1..];
      HexDecodes(rest);
      assert Hex(bs)[2..] == Hex(rest);
      HexDigitValue(b / 16);
      HexDigitValue(b % 16);
      assert bs == [b] + rest;
    }
  }

  /** What is written in hexadecimal, with or without the dollar sign, is read back. */
  lemma {:induction false} HexRoundTrip(bs: seq<Byte>)
    ensures Digest(Hex(bs)) == Some(bs) && Digest("$" + Hex(bs)) == Some(bs)
  {
    HexDecodes(bs);
    assert ("$" + Hex(bs))[1..] == Hex(bs);
    if bs != [] {
      HexDigitValue(bs[0] / 16);
      assert Hex(bs)[0] != '$';
    }
  }

  /** A number in decimal, without leading zeros. */
  function Show(n: nat): (s: string)
    ensures s != ""
  {
    (if n < 10 then "" else Show(n / 10)) + [(n % 10 + '0' as int) as char]
  }

  /** Exactly the numbers below the limit are read back. */
  lemma {:induction false} UintRoundTrip(n: nat, limit: nat)
    ensures ParseUint(Show(n), limit) == if n < limit then Some(n) else None
  {
    DecimalOfShow(n);
  }

  lemma {:induction false} DecimalOfShow(n: nat)
    ensures Decimal(Show(n)) == Some(n)
    decreases n
  {
    var s := Show(n);
    var front := if n < 10 then "" else Show(n / 10);
    assert s[..|s| - 1] == front;
    if 10 <= n {
      DecimalOfShow(n / 10);
    }
  }

  function Lower(c: char): char {
    if 'A' <= c <= 'Z' then ((c as int) + 32) as char else c
  }

  /** strings.EqualFold against "true". */
  predicate IsTrue(s: string) {
    |s| == 4 && Lower(s[0]) == 't' && Lower(s[1]) == 'r' && Lower(s[2]) == 'u' && Lower(s[3]) == 'e'
  }

  function Lowered(s: string): (r: string)
    ensures |r| == |s| && forall i :: 0 <= i < |s| ==> r[i] == Lower(s[i])
  {
    if s == "" then "" else [Lower(s[0])] + Lowered(s[1..])
  }

  /** "true" in any mix of upper and lower case. */
  lemma {:induction false} TrueIff(s: string)
    ensures IsTrue(s) <==> Lowered(s) == "true"
  {
    var r := Lowered(s);
    if |s| == 4 {
      assert r == [r[0], r[1], r[2], r[3]];
    }
  }

  lemma {:induction false} HexValueIff(c: char, v: Byte)
    requires v < 16
    ensures HexValue(c) == Some(v) <==> Lower(c) == HexDigit(v)
  {
  }

  /** Exactly the hexadecimal spellings of some bytes, in either case, are decoded to them. */
  lemma {:induction false} DecodeHexIff(s: string, bs: seq<Byte>)
    ensures DecodeHex(s) == Some(bs) <==> Lowered(s) == Hex(bs)
    decreases |s|
  {
    HexLength(bs);
    if |s| >= 2 && bs != [] {
      var h, l, rest := bs[0] / 16, bs[0] % 16, s[2..];
      DecodeHexIff(rest, bs[1..]);
      HexValueIff(s[0], h);
      HexValueIff(s[1], l);
      LoweredIsHex(s, bs);
      HexStep(s, bs);
    }
  }

  lemma {:induction false} LoweredIsHex(s: string, bs: seq<Byte>)
    requires |s| >= 2 && bs != []
    ensures Lowered(s) == Hex(bs) <==>
            && Lower(s[0]) == HexDigit(bs[0] / 16) && Lower(s[1]) == HexDigit(bs[0] % 16)
            && Lowered(s[2..]) == Hex(bs[1..])
  {
    var a, b := Lowered(s), Hex(bs);
    assert a[2..] == Lowered(s[2..]) && b[2..] == Hex(bs[1..]);
    assert b[0] == HexDigit(bs[0] / 16) && b[1] == HexDigit(bs[0] % 16);
    assert a == [a[0], a[1]] + a[2..] && b == [b[0], b[1]] + b[2..];
  }

  lemma {:induction false} HexStep(s: string, bs: seq<Byte>)
    requires |s| >= 2 && bs != []
    ensures DecodeHex(s) == Some(bs) <==>
            && HexValue(s[0]) == Some(bs[0] / 16) && HexValue(s[1]) == Some(bs[0] % 16)
            && DecodeHex(s[2..]) == Some(bs[1..])
  {
    if DecodeHex(s).Some? {
      var r := DecodeHex(s).value;
      assert r[0] == HexValue(s[0]).value * 16 + HexValue(s[1]).value;
      assert r[1..] == DecodeHex(s[2..]).value;
    }
    if DecodeHex(s[2..]) == Some(bs[1..]) {
      assert bs == [bs[0]] + bs[1..];
    }
  }

  lemma {:induction false} HexLength(bs: seq<Byte>)
    ensures |Hex(bs)| == 2 * |bs|
  {
    if bs != [] {
      HexLength(bs[1..]);
    }
  }

  /** A digest may be written in either case, and with a dollar sign in front. */
  lemma {:induction false} DigestIff(word: string, bs: seq<Byte>)
    ensures Digest(word) == Some(bs) <==> Lowered(word) == Hex(bs) || Lowered(word) == "$" + Hex(bs)
  {
    if word != "" && word[0] == '$' {
      assert "$" <= word;
      DecodeHexIff(word[1..], bs);
      assert Lowered(word) == "$" + Lowered(word[1..]);
      if bs != [] {
        HexDigitValue(bs[0] / 16);
        assert Hex(bs)[0] != '$' && Lowered(word)[0] == '$';
      }
      assert Lowered(word)[1..] == Lowered(word[1..]) && ("$" + Hex(bs))[1..] == Hex(bs);
    } else {
      assert !("$" <= word);
      DecodeHexIff(word, bs);
      if word != "" {
        assert Lowered(word)[0] == Lower(word[0]) != '$';
      }
      assert ("$" + Hex(bs))[0] == '$';
    }
  }

  function Zeros(k: nat): (r: string)
    ensures |r| == k
  {
    if k == 0 then "" else "0" + Zeros(k - 1)
  }

  /** The number in decimal, with any number of zeros in front. */
  ghost predicate Spells(s: string, n: nat) {
    exists k: nat :: s == Zeros(k) + Show(n)
  }

  lemma {:induction false} ZerosSnoc(k: nat)
    ensures Zeros(k) + "0" == Zeros(k + 1)
  {
    if k != 0 {
      ZerosSnoc(k - 1);
    }
  }

  lemma {:induction false} DecimalIgnoresZeros(k: nat, t: string)
    requires t != ""
    ensures Decimal(Zeros(k) + t) == Decimal(t)
    decreases |t|
  {
    var s, front := Zeros(k) + t, t[..|t| - 1];
    assert s[..|s| - 1] == Zeros(k) + front;
    if front == "" {
      assert Zeros(k) + front == Zeros(k);
      DecimalOfZeros(k);
    } else {
      DecimalIgnoresZeros(k, front);
    }
  }

  lemma {:induction false} DecimalOfZeros(k: nat)
    ensures Decimal(Zeros(k)) == Some(0)
  {
    if k != 0 {
      ZerosSnoc(k - 1);
      assert Zeros(k)[..k - 1] == Zeros(k - 1);
      DecimalOfZeros(k - 1);
    }
  }

  lemma {:induction false} ShowSnoc(m: nat, c: char, d: nat)
    requires 0 < m && DigitValue(c) == Some(d)
    ensures Show(10 * m + d) == Show(m) + [c]
  {
    var n := 10 * m + d;
    assert n / 10 == m && n % 10 == d;
  }

  lemma {:induction false} ShowDigit(c: char, d: nat)
    requires DigitValue(c) == Some(d)
    ensures Show(d) == [c]
  {
  }

  lemma {:induction false} SpellsSnoc(front: string, m: nat, c: char, d: nat)
    requires Spells(front, m) && DigitValue(c) == Some(d)
    ensures Spells(front + [c], 10 * m + d)
  {
    var k: nat :| front == Zeros(k) + Show(m);
    if m == 0 {
      ShowDigit(c, d);
      ShowDigit('0', 0);
      ZerosSnoc(k);
      assert front + [c] == Zeros(k + 1) + Show(d);
    } else {
      ShowSnoc(m, c, d);
      assert front + [c] == Zeros(k) + Show(10 * m + d);
    }
  }

  lemma {:induction false} DecimalSpells(s: string, n: nat)
    requires s != "" && Decimal(s) == Some(n)
    ensures Spells(s, n)
    decreases |s|
  {
    var front, c := s[..|s| - 1], s[|s| - 1];
    var m, d := Decimal(front).value, DigitValue(c).value;
    assert s == front + [c];
    if front == "" {
      ShowDigit(c, d);
      assert s == Zeros(0) + Show(n);
    } else {
      DecimalSpells(front, m);
      SpellsSnoc(front, m, c, d);
    }
  }

  /** Exactly the decimal spellings of the numbers below the limit are read, and nothing else. */
  lemma {:induction false} ParseUintIff(s: string, limit: nat, n: nat)
    ensures ParseUint(s, limit) == Some(n) <==> n < limit && Spells(s, n)
  {
    if ParseUint(s, limit) == Some(n) {
      DecimalSpells(s, n);
    }
    if n < limit && Spells(s, n) {
      var k: nat :| s == Zeros(k) + Show(n);
      DecimalIgnoresZeros(k, Show(n));
      DecimalOfShow(n);
    }
  }

  // ---------------------------------------------------------------- settings

  datatype Setting = VideoOn | AudioOn | VideoCodec | AudioCodec | VideoType | AudioType | VideoSsrc | AudioSsrc

  datatype Value = Flag(b: bool) | Text(t: string) | Number(n: nat)

  function SettingOf(word: string): Option<Setting> {
    if word == "Video:" then Some(VideoOn)
    else if word == "Audio:" then Some(AudioOn)
    else if word == "VideoCodec:" then Some(VideoCodec)
    else if word == "AudioCodec:" then Some(AudioCodec)
    else if word == "VideoPayloadType:" then Some(VideoType)
    else if word == "AudioPayloadType:" then Some(AudioType)
    else if word == "VideoIngestSSRC:" then Some(VideoSsrc)
    else if word == "AudioIngestSSRC:" then Some(AudioSsrc)
    else None
  }

  /** The value a setting line gives, when it is well formed. */
  function ValueOf(s: Setting, words: seq<string>): Option<Value> {
    if |words| != 2 then None
    else
      match s
      case VideoOn => if IsTrue(words[1]) then Some(Flag(true)) else None
      case AudioOn => if IsTrue(words[1]) then Some(Flag(true)) else None
      case VideoCodec => Some(Text(words[1]))
      case AudioCodec => Some(Text(words[1]))
      case VideoType => AsNumber(ParseUint(words[1], 256))
      case AudioType => AsNumber(ParseUint(words[1], 256))
      case VideoSsrc => AsNumber(ParseUint(words[1], 0x1_0000_0000))
      case AudioSsrc => AsNumber(ParseUint(words[1], 0x1_0000_0000))
  }

  function AsNumber(n: Option<nat>): Option<Value> {
    match n
    case Some(v) => Some(Number(v))
    case None => None
  }

  function Get(x: Settings, s: Setting): Value {
    match s
    case VideoOn => Flag(x.video)
    case AudioOn => Flag(x.audio)
    case VideoCodec => Text(x.vcodec)
    case AudioCodec => Text(x.acodec)
    case VideoType => Number(x.vpayload)
    case AudioType => Number(x.apayload)
    case VideoSsrc => Number(x.vssrc)
    case AudioSsrc => Number(x.assrc)
  }

  predicate Fits(s: Setting, v: Value) {
    if s.VideoOn? || s.AudioOn? then v.Flag?
    else if s.VideoCodec? || s.AudioCodec? then v.Text?
    else v.Number?
  }

  function Put(x: Settings, s: Setting, v: Value): Settings
    requires Fits(s, v)
  {
    match s
    case VideoOn => x.(video := v.b)
    case AudioOn => x.(audio := v.b)
    case VideoCodec => x.(vcodec := v.t)
    case AudioCodec => x.(acodec := v.t)
    case VideoType => x.(vpayload := v.n)
    case AudioType => x.(apayload := v.n)
    case VideoSsrc => x.(vssrc := v.n)
    case AudioSsrc => x.(assrc := v.n)
  }

  predicate Complete(x: Settings) {
    && x.video && x.audio
    && x.vcodec != "" && x.acodec != ""
    && x.vpayload != 0 && x.apayload != 0
    && x.vssrc != 0 && x.assrc != 0
  }

  predicate Supported(x: Settings) {
    x.vcodec == "H264" && x.acodec == "OPUS"
  }

  // ---------------------------------------------------------------- one command

  function HandleHmac(c: ConnState, w: World): (ConnState, Result) {
    if Unauth.Rank() < c.phase.Rank() then (c, Refused)
    else
      var drawn := if w.random.Some? then w.random.value else [];
      var c1 := if c.nonce.None? then c.(nonce := Some(drawn)) else c;
      if (c.nonce.None? && w.random.None?) || !w.writes then (c1, Refused)
      else (c1.(phase := Unauth), Handled)
  }

  function HandleConnect(c: ConnState, words: seq<string>, w: World): (ConnState, Result, Effect) {
    if |words| < 3 || c.phase != Unauth then (c, Refused, Nothing)
    else
      match Digest(words[2])
      case None => (c, Refused, Nothing)
      case Some(digest) =>
        var asked := Checked(words[1], c.nonce, digest, w.verdict);
        if w.verdict.None? then (c.(auth := None), Refused, asked)
        else (c.(auth := w.verdict, phase := Config), if w.writes then Handled else Refused, asked)
  }

  function HandleSetting(c: ConnState, s: Setting, words: seq<string>): (ConnState, Result) {
    if c.phase != Config then (c, Refused)
    else
      match ValueOf(s, words)
      case None => (c, Refused)
      case Some(v) => (c.(settings := Put(c.settings, s, v)), Handled)
  }

  function HandleLive(c: ConnState, w: World): (ConnState, Result, Effect) {
    if c.phase != Config then (c, Refused, Nothing)
    else
      var c1 := c.(phase := Live);
      if !Complete(c.settings) || !Supported(c.settings) then (c1, Refused, Nothing)
      else (c1, if w.writes then Handled else Refused, Published(c.auth, c.settings))
  }

  predicate Ignored(word: string) {
    word == "VendorName:" || word == "VendorVersion:" || word == "VideoHeight:" || word == "VideoWidth:"
  }

  /** The switch of the command loop. */
  function Command(c: ConnState, line: Line): (ConnState, Result, Effect) {
    var words, w := line.words, line.world;
    if words == [] then (c, Handled, Nothing)
    else if words[0] == "HMAC" then
      var (c1, r) := HandleHmac(c, w);
      (c1, r, Nothing)
    else if words[0] == "CONNECT" then HandleConnect(c, words, w)
    else if words[0] == "DISCONNECT" then (c, Disconnected, Nothing)
    else if words[0] == "PING" then (c, if w.writes then Handled else Refused, Nothing)
    else if words[0] == "ProtocolVersion:" then
      (c, if |words| < 2 || words[1] != "0.9" then Refused else Handled, Nothing)
    else if Ignored(words[0]) then (c, Handled, Nothing)
    else if SettingOf(words[0]).Some? then
      var (c1, r) := HandleSetting(c, SettingOf(words[0]).value, words);
      (c1, r, Nothing)
    else if words[0] == "." then HandleLive(c, w)
    else (c, Refused, Nothing)
  }

  /** One turn of the loop: the command, and then the flush of its reply. The empty line has
      neither. */
  function Turn(c: ConnState, line: Line): (ConnState, Result, Effect) {
    var (c1, r, e) := Command(c, line);
    (c1, if r.Handled? && line.words != [] && !line.world.flushes then Refused else r, e)
  }

  // ---------------------------------------------------------------- the connection as an object

  class Conn {
    var phase: Phase
    var nonce: Option<seq<Byte>>
    var auth: Option<Auth>
    var video: bool
    var audio: bool
    var vcodec: string
    var acodec: string
    var vpayload: nat
    var apayload: nat
    var vssrc: nat
    var assrc: nat

    ghost function State(): ConnState
      reads this
    {
      ConnState(phase, nonce, auth, Settings(video, audio, vcodec, acodec, vpayload, apayload, vssrc, assrc))
    }

    constructor ()
      ensures State() == NEW_CONN
    {
      phase, nonce, auth := New, None, None;
      video, audio, vcodec, acodec := false, false, "", "";
      vpayload, apayload, vssrc, assrc := 0, 0, 0, 0;
    }

    method HandleHMAC(w: World) returns (r: Result)
      modifies this
      ensures (State(), r) == HandleHmac(old(State()), w)
    {
      if phase.Config? || phase.Live? {
        return Refused;
      }
      if nonce.None? {
        if w.random.None? {
          nonce := Some([]);
          return Refused;
        }
        nonce := Some(w.random.value);
      }
      if !w.writes {
        return Refused;
      }
      phase := Unauth;
      return Handled;
    }

    method HandleCONNECT(words: seq<string>, w: World) returns (r: Result, e: Effect)
      modifies this
      ensures (State(), r, e) == HandleConnect(old(State()), words, w)
    {
      if |words| < 3 || phase != Unauth {
        return Refused, Nothing;
      }
      var digest := Digest(words[2]);
      if digest.None? {
        return Refused, Nothing;
      }
      e := Checked(words[1], nonce, digest.value, w.verdict);
      auth := w.verdict;
      if auth.None? {
        return Refused, e;
      }
      phase := Config;
      r := if w.writes then Handled else Refused;
    }

    method HandleEnable(words: seq<string>) returns (r: Result)
      requires words != [] && words[0] in {"Video:", "Audio:"}
      modifies this
      ensures (State(), r) == HandleSetting(old(State()), SettingOf(words[0]).value, words)
    {
      if phase != Config || |words| != 2 || !IsTrue(words[1]) {
        return Refused;
      }
      if words[0] == "Video:" {
        video := true;
      } else {
        audio := true;
      }
      return Handled;
    }

    method HandleCodec(words: seq<string>) returns (r: Result)
      requires words != [] && words[0] in {"VideoCodec:", "AudioCodec:"}
      modifies this
      ensures (State(), r) == HandleSetting(old(State()), SettingOf(words[0]).value, words)
    {
      if phase != Config || |words| != 2 {
        return Refused;
      }
      if words[0] == "VideoCodec:" {
        vcodec := words[1];
      } else {
        acodec := words[1];
      }
      return Handled;
    }

    method HandlePT(words: seq<string>) returns (r: Result)
      requires words != [] && words[0] in {"VideoPayloadType:", "AudioPayloadType:"}
      modifies this
      ensures (State(), r) == HandleSetting(old(State()), SettingOf(words[0]).value, words)
    {
      if phase != Config || |words| != 2 {
        return Refused;
      }
      var v := ParseUint(words[1], 256);
      if v.None? {
        return Refused;
      }
      if words[0] == "VideoPayloadType:" {
        vpayload := v.value;
      } else {
        apayload := v.value;
      }
      return Handled;
    }

    method HandleSSRC(words: seq<string>) returns (r: Result)
      requires words != [] && words[0] in {"VideoIngestSSRC:", "AudioIngestSSRC:"}
      modifies this
      ensures (State(), r) == HandleSetting(old(State()), SettingOf(words[0]).value, words)
    {
      if phase != Config || |words| != 2 {
        return Refused;
      }
      var v := ParseUint(words[1], 0x1_0000_0000);
      if v.None? {
        return Refused;
      }
      if words[0] == "VideoIngestSSRC:" {
        vssrc := v.value;
      } else {
        assrc := v.value;
      }
      return Handled;
    }

    method HandleDot(w: World) returns (r: Result, e: Effect)
      modifies this
      ensures (State(), r, e) == HandleLive(old(State()), w)
    {
      if phase != Config {
        return Refused, Nothing;
      }
      phase := Live;
      if !video || !audio || vcodec == "" || acodec == "" ||
         vpayload == 0 || apayload == 0 || vssrc == 0 || assrc == 0 {
        return Refused, Nothing;
      }
      if vcodec != "H264" || acodec != "OPUS" {
        return Refused, Nothing;
      }
      e := Published(auth, Settings(video, audio, vcodec, acodec, vpayload, apayload, vssrc, assrc));
      r := if w.writes then Handled else Refused;
    }

    method HandleLine(line: Line) returns (r: Result, e: Effect)
      modifies this
      ensures (State(), r, e) == Turn(old(State()), line)
    {
      var words, w := line.words, line.world;
      r, e := Handled, Nothing;
      if words == [] {
        return;
      }
      var word := words[0];
      if word == "HMAC" {
        r := HandleHMAC(w);
      } else if word == "CONNECT" {
        r, e := HandleCONNECT(words, w);
      } else if word == "DISCONNECT" {
        return Disconnected, Nothing;
      } else if word == "PING" {
        r := if w.writes then Handled else Refused;
      } else if word == "ProtocolVersion:" {
        r := if |words| < 2 || words[1] != "0.9" then Refused else Handled;
      } else if Ignored(word) {
      } else if word == "Video:" || word == "Audio:" {
        r := HandleEnable(words);
      } else if word == "VideoCodec:" || word == "AudioCodec:" {
        r := HandleCodec(words);
      } else if word == "VideoPayloadType:" || word == "AudioPayloadType:" {
        r := HandlePT(words);
      } else if word == "VideoIngestSSRC:" || word == "AudioIngestSSRC:" {
        r := HandleSSRC(words);
      } else if word == "." {
        r, e := HandleDot(w);
      } else {
        r := Refused;
      }
      if r.Handled? && !w.flushes {
        r := Refused;
      }
    }

    /** The command loop over the lines a client sends. */
    method Serve(lines: seq<Line>) returns (open: bool)
      requires State() == NEW_CONN
      modifies this
      ensures ConnRun(State(), open) == Run(lines)
    {
      open := true;
      var i := 0;
      while i < |lines| && open
        invariant i <= |lines|
        invariant ConnRun(State(), open) == Run(lines[..i])
      {
        var r, e := HandleLine(lines[i]);
        open := r.Handled?;
        assert lines[..i + 1] == lines[..i] + [lines[i]];
        i := i + 1;
      }
      ClosedStaysClosed(lines, i);
    }
  }

  // ---------------------------------------------------------------- whole conversations

  const NEW_CONN := ConnState(New, None, None, NO_SETTINGS)

  datatype ConnRun = ConnRun(state: ConnState, open: bool)

  /** The connection after a client has sent these lines; none is read after it ended. */
  function Run(lines: seq<Line>): ConnRun {
    if lines == [] then ConnRun(NEW_CONN, true)
    else
      var before := Run(lines[..|lines| - 1]);
      if !before.open then before
      else
        var (c, r, _) := Turn(before.state, lines[|lines| - 1]);
        ConnRun(c, r.Handled?)
  }

  lemma {:induction false} ClosedStaysClosed(lines: seq<Line>, i: nat)
    requires i <= |lines| && (i < |lines| ==> !Run(lines[..i]).open)
    ensures Run(lines) == Run(lines[..i])
    decreases |lines|
  {
    if i == |lines| {
      assert lines[..i] == lines;
    } else {
      var front := lines[..|lines| - 1];
      assert front[..i] == lines[..i];
      ClosedStaysClosed(front, i);
    }
  }

  /** What line `i` did, given that the connection was still open for it. */
  predicate ReadsLine(lines: seq<Line>, i: nat) {
    i < |lines| && Run(lines[..i]).open
  }

  function TurnAt(lines: seq<Line>, i: nat): (ConnState, Result, Effect)
    requires ReadsLine(lines, i)
  {
    Turn(Run(lines[..i]).state, lines[i])
  }

  lemma {:induction false} TurnMonotone(c: ConnState, line: Line)
    ensures c.phase.Rank() <= Turn(c, line).0.phase.Rank()
    ensures c.nonce.Some? ==> Turn(c, line).0.nonce == c.nonce
  {
  }

  /** The state of a connection never decreases, and a nonce once issued stays. */
  lemma {:induction false} NeverGoesBack(lines: seq<Line>, i: nat, j: nat)
    requires i <= j <= |lines|
    ensures Run(lines[..i]).state.phase.Rank() <= Run(lines[..j]).state.phase.Rank()
    ensures Run(lines[..i]).state.nonce.Some? ==> Run(lines[..j]).state.nonce == Run(lines[..i]).state.nonce
    decreases j
  {
    if i < j {
      NeverGoesBack(lines, i, j - 1);
      assert lines[..j][..j - 1] == lines[..j - 1];
      TurnMonotone(Run(lines[..j - 1]).state, lines[j - 1]);
    }
  }

  predicate Publishes(lines: seq<Line>, k: nat) {
    ReadsLine(lines, k) && TurnAt(lines, k).2.Published?
  }

  lemma {:induction false} PublishNeedsConfig(c: ConnState, line: Line)
    requires Turn(c, line).2.Published?
    ensures c.phase == Config && Turn(c, line).0.phase == Live
    ensures Turn(c, line).2 == Published(c.auth, c.settings) && Complete(c.settings) && Supported(c.settings)
    ensures line.words != [] && line.words[0] == "."
  {
  }

  /** Publish starts at most once per connection. */
  lemma {:induction false} PublishesOnce(lines: seq<Line>, k: nat, k': nat)
    requires Publishes(lines, k) && Publishes(lines, k')
    ensures k == k'
  {
    PublishNeedsConfig(Run(lines[..k]).state, lines[k]);
    PublishNeedsConfig(Run(lines[..k']).state, lines[k']);
    var first, second := if k < k' then k else k', if k < k' then k' else k;
    if first < second {
      assert lines[..first + 1][..first] == lines[..first];
      NeverGoesBack(lines, first + 1, second);
    }
  }

  // ---------------------------------------------------------------- why a publish was allowed

  predicate AnsweredHmac(lines: seq<Line>, i: nat, nonce: seq<Byte>) {
    && ReadsLine(lines, i)
    && lines[i].words != [] && lines[i].words[0] == "HMAC"
    && TurnAt(lines, i).1.Handled? && TurnAt(lines, i).0.nonce == Some(nonce)
  }

  predicate AcceptedConnect(lines: seq<Line>, j: nat, nonce: seq<Byte>, auth: Auth) {
    && ReadsLine(lines, j)
    && |lines[j].words| >= 3 && lines[j].words[0] == "CONNECT"
    && Digest(lines[j].words[2]).Some?
    && TurnAt(lines, j).1.Handled?
    && TurnAt(lines, j).2 == Checked(lines[j].words[1], Some(nonce), Digest(lines[j].words[2]).value, Some(auth))
  }

  predicate Supplied(lines: seq<Line>, m: nat, s: Setting, v: Value) {
    && ReadsLine(lines, m)
    && lines[m].words != [] && SettingOf(lines[m].words[0]) == Some(s)
    && ValueOf(s, lines[m].words) == Some(v)
  }

  /** The setting still has its zero value, or has the value of some line after line `j`. */
  ghost predicate Backed(lines: seq<Line>, j: nat, s: Setting) {
    var v := Get(Run(lines).state.settings, s);
    v == Get(NO_SETTINGS, s) || exists m: nat :: j < m && Supplied(lines, m, s, v)
  }

  ghost predicate Authorised(lines: seq<Line>, i: nat, j: nat) {
    var c := Run(lines).state;
    && i < j && c.nonce.Some? && c.auth.Some?
    && AnsweredHmac(lines, i, c.nonce.value)
    && AcceptedConnect(lines, j, c.nonce.value, c.auth.value)
    && forall s :: Backed(lines, j, s)
  }

  /** How far an open connection has come, and by which lines. */
  ghost predicate Story(lines: seq<Line>) {
    var c := Run(lines).state;
    match c.phase
    case New => c.settings == NO_SETTINGS
    case Unauth =>
      && c.settings == NO_SETTINGS && c.nonce.Some?
      && exists i: nat :: AnsweredHmac(lines, i, c.nonce.value)
    case Config => exists i: nat, j: nat :: Authorised(lines, i, j)
    case Live => exists i: nat, j: nat :: Authorised(lines, i, j)
  }

  datatype Move = Idle | Challenge | Accept(auth: Auth) | Setup(s: Setting, v: Value) | GoLive

  /** What a line that was handled has done to the connection. */
  predicate Did(c: ConnState, line: Line, m: Move) {
    var (c1, _, e) := Turn(c, line);
    var words := line.words;
    match m
    case Idle => c1 == c
    case Challenge =>
      && words != [] && words[0] == "HMAC" && c.phase.Rank() <= Unauth.Rank()
      && c1.nonce.Some? && c1 == c.(nonce := c1.nonce, phase := Unauth)
    case Accept(auth) =>
      && |words| >= 3 && words[0] == "CONNECT" && c.phase == Unauth && Digest(words[2]).Some?
      && e == Checked(words[1], c.nonce, Digest(words[2]).value, Some(auth))
      && c1 == c.(auth := Some(auth), phase := Config)
    case Setup(s, v) =>
      && words != [] && SettingOf(words[0]) == Some(s) && ValueOf(s, words) == Some(v)
      && c.phase == Config && c1 == c.(settings := Put(c.settings, s, v))
    case GoLive => c.phase == Config && c1 == c.(phase := Live)
  }

  lemma {:induction false} MoveOf(c: ConnState, line: Line) returns (m: Move)
    requires Turn(c, line).1.Handled?
    ensures Did(c, line, m)
  {
    var words := line.words;
    if words != [] && words[0] == "HMAC" {
      m := Challenge;
    } else if words != [] && words[0] == "CONNECT" {
      m := Accept(line.world.verdict.value);
    } else if words != [] && words[0] == "." {
      m := GoLive;
    } else if words != [] && SettingOf(words[0]).Some? {
      var s := SettingOf(words[0]).value;
      m := Setup(s, ValueOf(s, words).value);
    } else {
      m := Idle;
    }
  }

  lemma {:induction false} LaterLinesKeepFacts(front: seq<Line>, line: Line, i: nat)
    requires i < |front|
    ensures ReadsLine(front, i) == ReadsLine(front + [line], i)
    ensures ReadsLine(front, i) ==> TurnAt(front, i) == TurnAt(front + [line], i)
    ensures (front + [line])[i] == front[i]
  {
    assert (front + [line])[..i] == front[..i];
  }

  lemma {:induction false} BackedKept(front: seq<Line>, line: Line, j: nat, s: Setting)
    requires Backed(front, j, s)
    requires Get(Run(front + [line]).state.settings, s) == Get(Run(front).state.settings, s)
    ensures Backed(front + [line], j, s)
  {
    var v := Get(Run(front).state.settings, s);
    if v != Get(NO_SETTINGS, s) {
      var m: nat :| j < m && Supplied(front, m, s, v);
      LaterLinesKeepFacts(front, line, m);
      assert Supplied(front + [line], m, s, v);
    }
  }

  lemma {:induction false} PutThenGet(x: Settings, s: Setting, v: Value, s': Setting)
    requires Fits(s, v)
    ensures Get(Put(x, s, v), s') == if s' == s then v else Get(x, s')
  {
  }

  lemma {:induction false} AuthorisedKept(front: seq<Line>, line: Line, i: nat, j: nat)
    requires Authorised(front, i, j) && Run(front).open && Run(front + [line]).open
    requires Run(front).state.phase == Config || Run(front).state.phase == Live
    ensures Authorised(front + [line], i, j)
  {
    var lines := front + [line];
    var c := Run(front).state;
    assert lines[..|front|] == front;
    var m := MoveOf(c, line);
    LaterLinesKeepFacts(front, line, i);
    LaterLinesKeepFacts(front, line, j);
    forall s ensures Backed(lines, j, s) {
      if m.Setup? {
        PutThenGet(c.settings, m.s, m.v, s);
      }
      if m.Setup? && m.s == s {
        assert Supplied(lines, |front|, s, m.v);
      } else {
        BackedKept(front, line, j, s);
      }
    }
  }

  lemma {:induction false} NewlyAuthorised(front: seq<Line>, line: Line, i: nat, auth: Auth)
    requires Run(front).open && Run(front + [line]).open
    requires Did(Run(front).state, line, Accept(auth))
    requires Run(front).state.nonce.Some? && AnsweredHmac(front, i, Run(front).state.nonce.value)
    requires Run(front).state.settings == NO_SETTINGS
    ensures Authorised(front + [line], i, |front|)
  {
    var lines := front + [line];
    assert lines[..|front|] == front;
    LaterLinesKeepFacts(front, line, i);
    var nonce := Run(front).state.nonce.value;
    assert AnsweredHmac(lines, i, nonce);
    assert AcceptedConnect(lines, |front|, nonce, auth);
  }

  lemma {:induction false} StoryHolds(lines: seq<Line>)
    requires Run(lines).open
    ensures Story(lines)
    decreases |lines|
  {
    if lines != [] {
      var front, line := lines[..|lines| - 1], lines[|lines| - 1];
      assert lines == front + [line];
      StoryHolds(front);
      StoryGoesOn(front, line);
    }
  }

  lemma {:induction false} StoryGoesOn(front: seq<Line>, line: Line)
    requires Run(front).open && Run(front + [line]).open && Story(front)
    ensures Story(front + [line])
  {
    var lines := front + [line];
    assert lines[..|front|] == front;
    var c := Run(front).state;
    var m := MoveOf(c, line);
    if c.phase == Config || c.phase == Live {
      var i: nat, j: nat :| Authorised(front, i, j);
      AuthorisedKept(front, line, i, j);
    } else if m.Challenge? {
      assert AnsweredHmac(lines, |front|, Run(lines).state.nonce.value);
    } else if c.phase == Unauth {
      var i: nat :| AnsweredHmac(front, i, c.nonce.value);
      LaterLinesKeepFacts(front, line, i);
      assert AnsweredHmac(lines, i, c.nonce.value);
      if m.Accept? {
        NewlyAuthorised(front, line, i, m.auth);
      }
    }
  }

  lemma {:induction false} EarlierLines(lines: seq<Line>, k: nat, i: nat)
    requires i < k <= |lines|
    ensures ReadsLine(lines[..k], i) == ReadsLine(lines, i)
    ensures ReadsLine(lines, i) ==> TurnAt(lines[..k], i) == TurnAt(lines, i)
    ensures lines[..k][i] == lines[i]
  {
    assert lines[..k][..i] == lines[..i];
  }

  lemma {:induction false} CompleteIsNonZero(x: Settings, s: Setting)
    requires Complete(x)
    ensures Get(x, s) != Get(NO_SETTINGS, s)
  {
  }

  /** The settings all come from lines between `j` and `k`. */
  ghost predicate SuppliedBetween(lines: seq<Line>, j: nat, k: nat, s: Setting, v: Value) {
    exists m: nat :: j < m < k && Supplied(lines, m, s, v)
  }

  ghost predicate AllSupplied(lines: seq<Line>, j: nat, k: nat, x: Settings) {
    forall s :: SuppliedBetween(lines, j, k, s, Get(x, s))
  }

  lemma {:induction false} SettingWasSupplied(lines: seq<Line>, k: nat, j: nat, s: Setting)
    requires k <= |lines| && Backed(lines[..k], j, s) && Complete(Run(lines[..k]).state.settings)
    ensures SuppliedBetween(lines, j, k, s, Get(Run(lines[..k]).state.settings, s))
  {
    var v := Get(Run(lines[..k]).state.settings, s);
    CompleteIsNonZero(Run(lines[..k]).state.settings, s);
    var m: nat :| j < m && Supplied(lines[..k], m, s, v);
    EarlierLines(lines, k, m);
    assert Supplied(lines, m, s, v);
  }

  lemma {:induction false} AuthorisedEarlier(lines: seq<Line>, k: nat, i: nat, j: nat)
    requires k <= |lines| && Authorised(lines[..k], i, j)
    ensures var c := Run(lines[..k]).state;
            AnsweredHmac(lines, i, c.nonce.value) && AcceptedConnect(lines, j, c.nonce.value, c.auth.value)
  {
    EarlierLines(lines, k, i);
    EarlierLines(lines, k, j);
  }

  lemma {:induction false} SettingsWereSupplied(lines: seq<Line>, k: nat, i: nat, j: nat)
    requires k <= |lines| && Authorised(lines[..k], i, j) && Complete(Run(lines[..k]).state.settings)
    ensures AllSupplied(lines, j, k, Run(lines[..k]).state.settings)
  {
    var x := Run(lines[..k]).state.settings;
    forall s ensures SuppliedBetween(lines, j, k, s, Get(x, s)) {
      assert Backed(lines[..k], j, s);
      SettingWasSupplied(lines, k, j, s);
    }
  }

  lemma {:induction false} AuthorisedBy(lines: seq<Line>) returns (i: nat, j: nat)
    requires Run(lines).open && Run(lines).state.phase == Config
    ensures Authorised(lines, i, j)
  {
    StoryHolds(lines);
    i, j :| Authorised(lines, i, j);
  }

  /** FTL run safety: Publish starts only after an answered HMAC, a CONNECT that was accepted for
      that nonce, and all eight settings supplied between that CONNECT and the dot; it gets the
      auth value of that CONNECT and the values of those lines. */
  lemma {:induction false} PublishIsJustified(lines: seq<Line>, k: nat, e: Effect)
    returns (i: nat, j: nat, nonce: seq<Byte>, auth: Auth)
    requires ReadsLine(lines, k) && TurnAt(lines, k).2 == e && e.Published?
    ensures i < j < k && lines[k].words != [] && lines[k].words[0] == "."
    ensures AnsweredHmac(lines, i, nonce) && AcceptedConnect(lines, j, nonce, auth)
    ensures e.auth == Some(auth) && Complete(e.settings) && Supported(e.settings)
    ensures AllSupplied(lines, j, k, e.settings)
  {
    var c := Run(lines[..k]).state;
    PublishNeedsConfig(c, lines[k]);
    i, j := AuthorisedBy(lines[..k]);
    nonce, auth := c.nonce.value, c.auth.value;
    AuthorisedEarlier(lines, k, i, j);
    SettingsWereSupplied(lines, k, i, j);
  }

  // ---------------------------------------------------------------- a client that does it right

  predicate GoodHmac(l: Line) {
    l.words != [] && l.words[0] == "HMAC" && l.world.random.Some? && l.world.writes && l.world.flushes
  }

  predicate GoodConnect(l: Line, auth: Auth) {
    && |l.words| >= 3 && l.words[0] == "CONNECT" && Digest(l.words[2]).Some?
    && l.world.verdict == Some(auth) && l.world.writes && l.world.flushes
  }

  predicate GoodSetting(l: Line) {
    && l.words != [] && SettingOf(l.words[0]).Some?
    && ValueOf(SettingOf(l.words[0]).value, l.words).Some? && l.world.flushes
  }

  predicate GoodDot(l: Line) {
    l.words != [] && l.words[0] == "." && l.world.writes && l.world.flushes
  }

  /** The value the last line for a setting gives it. */
  function LastValue(ls: seq<Line>, s: Setting): Value {
    if ls == [] then Get(NO_SETTINGS, s)
    else
      var n := |ls| - 1;
      if GoodSetting(ls[n]) && SettingOf(ls[n].words[0]) == Some(s) then ValueOf(s, ls[n].words).value
      else LastValue(ls[..n], s)
  }

  lemma {:induction false} RunSnoc(lines: seq<Line>, l: Line)
    requires Run(lines).open
    ensures Run(lines + [l]) == ConnRun(Turn(Run(lines).state, l).0, Turn(Run(lines).state, l).1.Handled?)
  {
  }

  lemma {:induction false} GoodOpening(hmac: Line, connect: Line, auth: Auth)
    requires GoodHmac(hmac) && GoodConnect(connect, auth)
    ensures Run([hmac, connect]) == ConnRun(ConnState(Config, hmac.world.random, Some(auth), NO_SETTINGS), true)
  {
    assert [] + [hmac] == [hmac] && [hmac] + [connect] == [hmac, connect];
    RunSnoc([], hmac);
    RunSnoc([hmac], connect);
  }

  ghost predicate Reflects(x: Settings, ls: seq<Line>) {
    forall s :: Get(x, s) == LastValue(ls, s)
  }

  lemma {:induction false} SettingTurn(c: ConnState, l: Line)
    requires GoodSetting(l) && c.phase == Config
    ensures var s := SettingOf(l.words[0]).value;
            Turn(c, l) == (c.(settings := Put(c.settings, s, ValueOf(s, l.words).value)), Handled, Nothing)
  {
  }

  lemma {:induction false} SettingReflected(x: Settings, front: seq<Line>, l: Line)
    requires GoodSetting(l) && Reflects(x, front)
    ensures var s := SettingOf(l.words[0]).value;
            Reflects(Put(x, s, ValueOf(s, l.words).value), front + [l])
  {
    var s := SettingOf(l.words[0]).value;
    var v := ValueOf(s, l.words).value;
    var ls := front + [l];
    assert ls[..|front|] == front && ls[|front|] == l;
    forall s' ensures Get(Put(x, s, v), s') == LastValue(ls, s') {
      PutThenGet(x, s, v, s');
    }
  }

  ghost predicate Configured(lines: seq<Line>, auth: Auth, ls: seq<Line>) {
    var r := Run(lines);
    r.open && r.state.phase == Config && r.state.auth == Some(auth) && Reflects(r.state.settings, ls)
  }

  lemma {:induction false} GoodSettingNext(lines: seq<Line>, auth: Auth, front: seq<Line>, l: Line)
    requires Configured(lines, auth, front) && GoodSetting(l)
    ensures Configured(lines + [l], auth, front + [l])
  {
    RunSnoc(lines, l);
    SettingTurn(Run(lines).state, l);
    SettingReflected(Run(lines).state.settings, front, l);
  }

  lemma {:induction false} GoodSettings(hmac: Line, connect: Line, auth: Auth, ls: seq<Line>)
    requires GoodHmac(hmac) && GoodConnect(connect, auth) && forall i :: 0 <= i < |ls| ==> GoodSetting(ls[i])
    ensures Configured([hmac, connect] + ls, auth, ls)
    decreases |ls|
  {
    if ls == [] {
      GoodOpening(hmac, connect, auth);
      assert [hmac, connect] + ls == [hmac, connect];
    } else {
      var front, l := ls[..|ls| - 1], ls[|ls| - 1];
      GoodSettings(hmac, connect, auth, front);
      assert [hmac, connect] + ls == ([hmac, connect] + front) + [l] && ls == front + [l];
      GoodSettingNext([hmac, connect] + front, auth, front, l);
    }
  }

  lemma {:induction false} DotTurn(c: ConnState, l: Line)
    requires GoodDot(l) && c.phase == Config
    ensures Turn(c, l).2.Published? <==> Complete(c.settings) && Supported(c.settings)
  {
  }

  /** A client that answers the challenge, is accepted and sends well-formed settings in any order,
      repeated ones included, goes live with its dot exactly when the last values it gave are
      complete and name the supported codecs. */
  lemma {:induction false} GoodClientPublishes(hmac: Line, connect: Line, auth: Auth, ls: seq<Line>, dot: Line)
    requires GoodHmac(hmac) && GoodConnect(connect, auth) && GoodDot(dot)
    requires forall i :: 0 <= i < |ls| ==> GoodSetting(ls[i])
    ensures var x := Run([hmac, connect] + ls).state.settings;
            && Reflects(x, ls)
            && (Publishes([hmac, connect] + ls + [dot], 2 + |ls|) <==> Complete(x) && Supported(x))
            && (Publishes([hmac, connect] + ls + [dot], 2 + |ls|) ==>
                TurnAt([hmac, connect] + ls + [dot], 2 + |ls|).2 == Published(Some(auth), x))
  {
    var before := [hmac, connect] + ls;
    var lines, k := before + [dot], 2 + |ls|;
    GoodSettings(hmac, connect, auth, ls);
    DotTurn(Run(before).state, dot);
    assert lines[..k] == before && lines[k] == dot;
  }

  // ---------------------------------------------------------------- every command, word by word

  /** What a line that only changes the settings comes to. */
  function Changed(c: ConnState, x: Settings): (ConnState, Result, Effect) {
    (c.(settings := x), Handled, Nothing)
  }

  function NotTaken(c: ConnState): (ConnState, Result, Effect) {
    (c, Refused, Nothing)
  }

  lemma {:induction false} SettingWords()
    ensures SettingOf("Video:") == Some(VideoOn) && SettingOf("Audio:") == Some(AudioOn)
    ensures SettingOf("VideoCodec:") == Some(VideoCodec) && SettingOf("AudioCodec:") == Some(AudioCodec)
    ensures SettingOf("VideoPayloadType:") == Some(VideoType) && SettingOf("AudioPayloadType:") == Some(AudioType)
    ensures SettingOf("VideoIngestSSRC:") == Some(VideoSsrc) && SettingOf("AudioIngestSSRC:") == Some(AudioSsrc)
  {
  }

  lemma {:induction false} SettingCommand(c: ConnState, words: seq<string>, w: World)
    requires words != [] && SettingOf(words[0]).Some?
    ensures var (c1, r) := HandleSetting(c, SettingOf(words[0]).value, words);
            Turn(c, Line(words, w)) == (c1, if r.Handled? && !w.flushes then Refused else r, Nothing)
  {
  }

  /** The two switches and the two codecs. */
  lemma {:induction false} SwitchAndCodecLines(c: ConnState, v: string, w: World)
    requires c.phase == Config && w.flushes
    ensures var x, on := c.settings, Lowered(v) == "true";
            && Turn(c, Line(["Video:", v], w)) == (if on then Changed(c, x.(video := true)) else NotTaken(c))
            && Turn(c, Line(["Audio:", v], w)) == (if on then Changed(c, x.(audio := true)) else NotTaken(c))
            && Turn(c, Line(["VideoCodec:", v], w)) == Changed(c, x.(vcodec := v))
            && Turn(c, Line(["AudioCodec:", v], w)) == Changed(c, x.(acodec := v))
  {
    TrueIff(v);
    SettingWords();
    SettingCommand(c, ["Video:", v], w);
    SettingCommand(c, ["Audio:", v], w);
    SettingCommand(c, ["VideoCodec:", v], w);
    SettingCommand(c, ["AudioCodec:", v], w);
  }

  /** The four numbers: exactly the decimal spellings of those that fit 8 and 32 bits are taken. */
  lemma {:induction false} NumberLines(c: ConnState, v: string, n: nat, w: World)
    requires c.phase == Config && w.flushes && Spells(v, n)
    ensures var x := c.settings;
            && Turn(c, Line(["VideoPayloadType:", v], w)) ==
               (if n < 256 then Changed(c, x.(vpayload := n)) else NotTaken(c))
            && Turn(c, Line(["AudioPayloadType:", v], w)) ==
               (if n < 256 then Changed(c, x.(apayload := n)) else NotTaken(c))
            && Turn(c, Line(["VideoIngestSSRC:", v], w)) ==
               (if n < 4294967296 then Changed(c, x.(vssrc := n)) else NotTaken(c))
            && Turn(c, Line(["AudioIngestSSRC:", v], w)) ==
               (if n < 4294967296 then Changed(c, x.(assrc := n)) else NotTaken(c))
  {
    SettingWords();
    NumberLine(c, "VideoPayloadType:", VideoType, v, n, w);
    NumberLine(c, "AudioPayloadType:", AudioType, v, n, w);
    NumberLine(c, "VideoIngestSSRC:", VideoSsrc, v, n, w);
    NumberLine(c, "AudioIngestSSRC:", AudioSsrc, v, n, w);
  }

  lemma {:induction false} NumberLine(c: ConnState, word: string, s: Setting, v: string, n: nat, w: World)
    requires c.phase == Config && w.flushes && Spells(v, n)
    requires SettingOf(word) == Some(s) && (s.VideoType? || s.AudioType? || s.VideoSsrc? || s.AudioSsrc?)
    ensures var limit := if s.VideoType? || s.AudioType? then 256 else 4294967296;
            Turn(c, Line([word, v], w)) ==
            if n < limit then Changed(c, Put(c.settings, s, Number(n))) else NotTaken(c)
  {
    OnlyNumber(v, 256, n);
    OnlyNumber(v, 4294967296, n);
    SettingCommand(c, [word, v], w);
  }

  lemma {:induction false} OnlyNumber(v: string, limit: nat, n: nat)
    requires Spells(v, n)
    ensures ParseUint(v, limit) == if n < limit then Some(n) else None
  {
    var k: nat :| v == Zeros(k) + Show(n);
    DecimalIgnoresZeros(k, Show(n));
    DecimalOfShow(n);
  }

  lemma {:induction false} SpellsNothing(v: string, limit: nat)
    requires forall n :: !Spells(v, n)
    ensures ParseUint(v, limit).None?
  {
    if ParseUint(v, limit).Some? {
      ParseUintIff(v, limit, ParseUint(v, limit).value);
    }
  }

  predicate IsSettingWord(word: string) {
    word in {"Video:", "Audio:", "VideoCodec:", "AudioCodec:",
             "VideoPayloadType:", "AudioPayloadType:", "VideoIngestSSRC:", "AudioIngestSSRC:"}
  }

  /** A setting line is refused outside the configuration, without exactly one value, and when a
      number is asked for and the value spells none. */
  lemma {:induction false} BadSettingLines(c: ConnState, words: seq<string>, w: World)
    requires words != [] && IsSettingWord(words[0])
    requires || c.phase != Config || |words| != 2
             || (words[0] in {"VideoPayloadType:", "AudioPayloadType:", "VideoIngestSSRC:", "AudioIngestSSRC:"} &&
                 forall n :: !Spells(words[1], n))
    ensures Turn(c, Line(words, w)) == NotTaken(c)
  {
    SettingWords();
    SettingCommand(c, words, w);
    if |words| == 2 && c.phase == Config {
      SpellsNothing(words[1], 256);
      SpellsNothing(words[1], 0x1_0000_0000);
    }
  }

  /** The dot: publishing starts exactly when everything is there and the codecs are H.264 and Opus,
      and the connection has left its configuration in any case. */
  lemma {:induction false} DotLine(c: ConnState, w: World)
    ensures var (c1, r, e), x := Turn(c, Line(["."], w)), c.settings;
            if c.phase != Config then (c1, r, e) == NotTaken(c)
            else
              && c1 == c.(phase := Live)
              && e == (if x.video && x.audio && x.vcodec == "H264" && x.acodec == "OPUS" &&
                          x.vpayload != 0 && x.apayload != 0 && x.vssrc != 0 && x.assrc != 0
                       then Published(c.auth, x) else Nothing)
              && (r.Handled? <==> e.Published? && w.writes && w.flushes)
  {
  }

  /** The challenge: drawn once, the same as long as it is asked for, refused after CONNECT. */
  lemma {:induction false} HmacLine(c: ConnState, w: World)
    ensures var (c1, r, e) := Turn(c, Line(["HMAC"], w));
            && e == Nothing && c1.settings == c.settings && c1.auth == c.auth
            && (r.Handled? <==>
                && (c.phase == New || c.phase == Unauth) && (c.nonce.Some? || w.random.Some?) && w.writes && w.flushes)
            && (r.Handled? ==> c1.phase == Unauth && c1.nonce == if c.nonce.Some? then c.nonce else w.random)
  {
  }

  /** CONNECT: the user is checked, with the nonce that was issued and the digest that was sent, only
      between the challenge and the configuration, and what comes of it decides. */
  lemma {:induction false} ConnectLine(c: ConnState, channel: string, word: string, w: World)
    ensures var (c1, r, e) := Turn(c, Line(["CONNECT", channel, word], w));
            if c.phase != Unauth || Digest(word).None? then (c1, r, e) == NotTaken(c)
            else
              && e == Checked(channel, c.nonce, Digest(word).value, w.verdict)
              && c1 == (if w.verdict.Some? then c.(auth := w.verdict, phase := Config) else c.(auth := None))
              && (r.Handled? <==> w.verdict.Some? && w.writes && w.flushes)
  {
  }

  /** The other commands change nothing. */
  lemma {:induction false} OtherLines(c: ConnState, rest: seq<string>, w: World)
    ensures Turn(c, Line(["DISCONNECT"] + rest, w)) == (c, Disconnected, Nothing)
    ensures Turn(c, Line(["PING"] + rest, w)) == (c, if w.writes && w.flushes then Handled else Refused, Nothing)
    ensures Turn(c, Line(["ProtocolVersion:"] + rest, w)) ==
            (c, if rest != [] && rest[0] == "0.9" && w.flushes then Handled else Refused, Nothing)
    ensures forall word :: word in {"VendorName:", "VendorVersion:", "VideoHeight:", "VideoWidth:"} ==>
              Turn(c, Line([word] + rest, w)) == (c, if w.flushes then Handled else Refused, Nothing)
    ensures Turn(c, Line([], w)) == (c, Handled, Nothing)
  {
  }

  /** And what is no command is refused. */
  lemma {:induction false} UnknownLines(c: ConnState, words: seq<string>, w: World)
    requires words != [] && !IsSettingWord(words[0])
    requires words[0] !in {"HMAC", "CONNECT", "DISCONNECT", "PING", "ProtocolVersion:", ".",
                           "VendorName:", "VendorVersion:", "VideoHeight:", "VideoWidth:"}
    ensures Turn(c, Line(words, w)) == NotTaken(c)
  {
  }

  // ---------------------------------------------------------------- what a publisher has said

  ghost predicate SaidAt(lines: seq<Line>, m: nat, word: string, v: string) {
    ReadsLine(lines, m) && lines[m].words == [word, v]
  }

  /** A line between the two was this word and this value. */
  ghost predicate Said(lines: seq<Line>, j: nat, k: nat, word: string, v: string) {
    exists m: nat :: j < m < k && SaidAt(lines, m, word, v)
  }

  ghost predicate SaidTrue(lines: seq<Line>, j: nat, k: nat, word: string) {
    exists v :: Said(lines, j, k, word, v) && Lowered(v) == "true"
  }

  ghost predicate SaidNumber(lines: seq<Line>, j: nat, k: nat, word: string, n: nat) {
    exists v :: Said(lines, j, k, word, v) && Spells(v, n)
  }

  /** The word for a setting. */
  function WordFor(s: Setting): string {
    match s
    case VideoOn => "Video:"
    case AudioOn => "Audio:"
    case VideoCodec => "VideoCodec:"
    case AudioCodec => "AudioCodec:"
    case VideoType => "VideoPayloadType:"
    case AudioType => "AudioPayloadType:"
    case VideoSsrc => "VideoIngestSSRC:"
    case AudioSsrc => "AudioIngestSSRC:"
  }

  lemma {:induction false} OnlyWordFor(word: string, s: Setting)
    ensures SettingOf(word) == Some(s) <==> word == WordFor(s)
  {
    SettingWords();
  }

  lemma {:induction false} SuppliedIsSaid(lines: seq<Line>, j: nat, k: nat, s: Setting, v: Value) returns (t: string)
    requires SuppliedBetween(lines, j, k, s, v)
    ensures Said(lines, j, k, WordFor(s), t) && ValueOf(s, [WordFor(s), t]) == Some(v)
  {
    var m: nat :| j < m < k && Supplied(lines, m, s, v);
    var words := lines[m].words;
    OnlyWordFor(words[0], s);
    t := words[1];
    assert words == [WordFor(s), t];
    assert SaidAt(lines, m, WordFor(s), t);
  }

  /** The video settings were said, in these words. */
  ghost predicate VideoSaid(lines: seq<Line>, j: nat, k: nat, x: Settings) {
    && SaidTrue(lines, j, k, "Video:") && Said(lines, j, k, "VideoCodec:", x.vcodec)
    && SaidNumber(lines, j, k, "VideoPayloadType:", x.vpayload) && SaidNumber(lines, j, k, "VideoIngestSSRC:", x.vssrc)
  }

  /** The audio settings were said, in these words. */
  ghost predicate AudioSaid(lines: seq<Line>, j: nat, k: nat, x: Settings) {
    && SaidTrue(lines, j, k, "Audio:") && Said(lines, j, k, "AudioCodec:", x.acodec)
    && SaidNumber(lines, j, k, "AudioPayloadType:", x.apayload) && SaidNumber(lines, j, k, "AudioIngestSSRC:", x.assrc)
  }

  lemma {:induction false} VideoWasSaid(lines: seq<Line>, j: nat, k: nat, x: Settings)
    requires AllSupplied(lines, j, k, x)
    ensures VideoSaid(lines, j, k, x)
  {
    TrueWasSaid(lines, j, k, x, VideoOn);
    TextWasSaid(lines, j, k, x, VideoCodec);
    NumberWasSaid(lines, j, k, x, VideoType);
    NumberWasSaid(lines, j, k, x, VideoSsrc);
  }

  lemma {:induction false} AudioWasSaid(lines: seq<Line>, j: nat, k: nat, x: Settings)
    requires AllSupplied(lines, j, k, x)
    ensures AudioSaid(lines, j, k, x)
  {
    TrueWasSaid(lines, j, k, x, AudioOn);
    TextWasSaid(lines, j, k, x, AudioCodec);
    NumberWasSaid(lines, j, k, x, AudioType);
    NumberWasSaid(lines, j, k, x, AudioSsrc);
  }

  /** What is published is what was said, setting by setting, after the CONNECT that was accepted and
      before the dot. */
  lemma {:induction false} PublishedAsSaid(lines: seq<Line>, k: nat, e: Effect) returns (j: nat)
    requires ReadsLine(lines, k) && TurnAt(lines, k).2 == e && e.Published?
    ensures j < k && lines[j].words != [] && lines[j].words[0] == "CONNECT"
    ensures VideoSaid(lines, j, k, e.settings) && AudioSaid(lines, j, k, e.settings)
    ensures var x := e.settings;
            && x.video && x.audio && x.vcodec == "H264" && x.acodec == "OPUS"
            && x.vpayload != 0 && x.apayload != 0 && x.vssrc != 0 && x.assrc != 0
  {
    var i, nonce, auth;
    i, j, nonce, auth := PublishIsJustified(lines, k, e);
    VideoWasSaid(lines, j, k, e.settings);
    AudioWasSaid(lines, j, k, e.settings);
  }

  lemma {:induction false} TrueWasSaid(lines: seq<Line>, j: nat, k: nat, x: Settings, s: Setting)
    requires AllSupplied(lines, j, k, x) && (s.VideoOn? || s.AudioOn?)
    ensures SaidTrue(lines, j, k, WordFor(s))
  {
    assert SuppliedBetween(lines, j, k, s, Get(x, s));
    var t := SuppliedIsSaid(lines, j, k, s, Get(x, s));
    TrueIff(t);
  }

  lemma {:induction false} TextWasSaid(lines: seq<Line>, j: nat, k: nat, x: Settings, s: Setting)
    requires AllSupplied(lines, j, k, x) && (s.VideoCodec? || s.AudioCodec?)
    ensures Said(lines, j, k, WordFor(s), if s.VideoCodec? then x.vcodec else x.acodec)
  {
    assert SuppliedBetween(lines, j, k, s, Get(x, s));
    var t := SuppliedIsSaid(lines, j, k, s, Get(x, s));
  }

  lemma {:induction false} NumberWasSaid(lines: seq<Line>, j: nat, k: nat, x: Settings, s: Setting)
    requires AllSupplied(lines, j, k, x) && Get(x, s).Number?
    ensures SaidNumber(lines, j, k, WordFor(s), Get(x, s).n)
  {
    assert SuppliedBetween(lines, j, k, s, Get(x, s));
    var t := SuppliedIsSaid(lines, j, k, s, Get(x, s));
    ParseUintIff(t, 256, Get(x, s).n);
    ParseUintIff(t, 0x1_0000_0000, Get(x, s).n);
  }

  // ---------------------------------------------------------------- a whole conversation

  /** The connection after more lines. */
  function RunOn(r: ConnRun, lines: seq<Line>): ConnRun
    decreases |lines|
  {
    if lines == [] || !r.open then r
    else
      var (c, result, _) := Turn(r.state, lines[0]);
      RunOn(ConnRun(c, result.Handled?), lines[1..])
  }

  lemma {:induction false} RunAppend(a: seq<Line>, b: seq<Line>)
    ensures Run(a + b) == RunOn(Run(a), b)
    decreases |b|
  {
    if b == [] {
      assert a + b == a;
    } else if !Run(a).open {
      ClosedStaysClosed(a + b, |a|);
      assert (a + b)[..|a|] == a;
    } else {
      RunSnoc(a, b[0]);
      RunAppend(a + [b[0]], b[1..]);
      assert a + b == (a + [b[0]]) + b[1..];
    }
  }

  /** Lines of these words, with the same things happening around each. */
  function Lines(script: seq<seq<string>>, w: World): (r: seq<Line>)
    ensures |r| == |script| && forall i :: 0 <= i < |r| ==> r[i] == Line(script[i], w)
  {
    if script == [] then [] else [Line(script[0], w)] + Lines(script[1..], w)
  }

  function Greeting(channel: string, digest: seq<Byte>): seq<seq<string>> {
    [["HMAC"], ["CONNECT", channel, "$" + Hex(digest)], ["ProtocolVersion:", "0.9"],
     ["VideoHeight:", "720"]]
  }

  function VideoPart(n: nat, ssrc: nat): seq<seq<string>> {
    [["Video:", "true"], ["VideoCodec:", "H264"], ["VideoPayloadType:", Show(n)], ["VideoIngestSSRC:", Show(ssrc)]]
  }

  function AudioPart(n: nat, ssrc: nat): seq<seq<string>> {
    [["Audio:", "true"], ["AudioCodec:", "OPUS"], ["AudioPayloadType:", Show(n)], ["AudioIngestSSRC:", Show(ssrc)]]
  }

  lemma {:induction false} ShowSpells(n: nat)
    ensures Spells(Show(n), n)
  {
    assert Show(n) == Zeros(0) + Show(n);
  }

  lemma {:induction false} TurnOn(c: ConnState, l: Line, rest: seq<Line>)
    requires Turn(c, l).1.Handled?
    ensures RunOn(ConnRun(c, true), [l] + rest) == RunOn(ConnRun(Turn(c, l).0, true), rest)
  {
    assert ([l] + rest)[1..] == rest;
  }

  predicate GoodWorld(w: World) {
    w.random.Some? && w.verdict.Some? && w.writes && w.flushes
  }

  lemma {:induction false} GreetingDone(channel: string, digest: seq<Byte>, w: World)
    requires GoodWorld(w)
    ensures Run(Lines(Greeting(channel, digest), w)) ==
            ConnRun(ConnState(Config, w.random, w.verdict, NO_SETTINGS), true)
    ensures var c := Run(Lines(Greeting(channel, digest)[..1], w)).state;
            Turn(c, Line(Greeting(channel, digest)[1], w)).2 == Checked(channel, w.random, digest, w.verdict)
  {
    var script := Greeting(channel, digest);
    var l0, l1, l2, l3 := Line(script[0], w), Line(script[1], w), Line(script[2], w), Line(script[3], w);
    HexRoundTrip(digest);
    assert Lines(script, w) == [] + ([l0] + ([l1] + ([l2] + ([l3] + []))));
    RunAppend([], [l0] + ([l1] + ([l2] + ([l3] + []))));
    HmacLine(NEW_CONN, w);
    TurnOn(NEW_CONN, l0, [l1] + ([l2] + ([l3] + [])));
    var c1 := Turn(NEW_CONN, l0).0;
    ConnectLine(c1, channel, script[1][2], w);
    TurnOn(c1, l1, [l2] + ([l3] + []));
    var c2 := Turn(c1, l1).0;
    OtherLines(c2, ["0.9"], w);
    OtherLines(c2, ["720"], w);
    assert ["ProtocolVersion:"] + ["0.9"] == script[2] && ["VideoHeight:"] + ["720"] == script[3];
    TurnOn(c2, l2, [l3] + []);
    TurnOn(c2, l3, []);
    assert Lines(script[..1], w) == [] + [l0];
    RunSnoc([], l0);
  }

  lemma {:induction false} VideoPartDone(c: ConnState, n: nat, ssrc: nat, w: World)
    requires c.phase == Config && GoodWorld(w) && n < 256 && ssrc < TWO32
    ensures RunOn(ConnRun(c, true), Lines(VideoPart(n, ssrc), w)) ==
            ConnRun(c.(settings := c.settings.(video := true, vcodec := "H264", vpayload := n, vssrc := ssrc)), true)
  {
    var script := VideoPart(n, ssrc);
    var l0, l1, l2, l3 := Line(script[0], w), Line(script[1], w), Line(script[2], w), Line(script[3], w);
    ShowSpells(n);
    ShowSpells(ssrc);
    assert Lines(script, w) == [l0] + ([l1] + ([l2] + ([l3] + [])));
    var c1 := c.(settings := c.settings.(video := true));
    var c2 := c1.(settings := c1.settings.(vcodec := "H264"));
    var c3 := c2.(settings := c2.settings.(vpayload := n));
    SwitchAndCodecLines(c, "true", w);
    TurnOn(c, l0, [l1] + ([l2] + ([l3] + [])));
    SwitchAndCodecLines(c1, "H264", w);
    TurnOn(c1, l1, [l2] + ([l3] + []));
    NumberLines(c2, Show(n), n, w);
    TurnOn(c2, l2, [l3] + []);
    NumberLines(c3, Show(ssrc), ssrc, w);
    TurnOn(c3, l3, []);
  }

  lemma {:induction false} AudioPartDone(c: ConnState, n: nat, ssrc: nat, w: World)
    requires c.phase == Config && GoodWorld(w) && n < 256 && ssrc < TWO32
    ensures RunOn(ConnRun(c, true), Lines(AudioPart(n, ssrc), w)) ==
            ConnRun(c.(settings := c.settings.(audio := true, acodec := "OPUS", apayload := n, assrc := ssrc)), true)
  {
    var script := AudioPart(n, ssrc);
    var l0, l1, l2, l3 := Line(script[0], w), Line(script[1], w), Line(script[2], w), Line(script[3], w);
    ShowSpells(n);
    ShowSpells(ssrc);
    assert Lines(script, w) == [l0] + ([l1] + ([l2] + ([l3] + [])));
    var c1 := c.(settings := c.settings.(audio := true));
    var c2 := c1.(settings := c1.settings.(acodec := "OPUS"));
    var c3 := c2.(settings := c2.settings.(apayload := n));
    SwitchAndCodecLines(c, "true", w);
    TurnOn(c, l0, [l1] + ([l2] + ([l3] + [])));
    SwitchAndCodecLines(c1, "OPUS", w);
    TurnOn(c1, l1, [l2] + ([l3] + []));
    NumberLines(c2, Show(n), n, w);
    TurnOn(c2, l2, [l3] + []);
    NumberLines(c3, Show(ssrc), ssrc, w);
    TurnOn(c3, l3, []);
  }

  /** A client that says what FTL clients say goes live with exactly what it said. */
  lemma {:induction false} ConversationPublishes(channel: string, digest: seq<Byte>, vpt: nat, apt: nat, vssrc: nat,
                                                 assrc: nat, w: World)
    requires 0 < vpt < 256 && 0 < apt < 256 && 0 < vssrc < TWO32 && 0 < assrc < TWO32 && GoodWorld(w)
    ensures var lines := Lines(Greeting(channel, digest), w) + Lines(VideoPart(vpt, vssrc), w) +
                         Lines(AudioPart(apt, assrc), w);
            && Run(lines).open
            && Turn(Run(lines).state, Line(["."], w)).2 ==
               Published(w.verdict, Settings(true, true, "H264", "OPUS", vpt, apt, vssrc, assrc))
  {
    var a, b := Lines(Greeting(channel, digest), w), Lines(VideoPart(vpt, vssrc), w);
    var d := Lines(AudioPart(apt, assrc), w);
    GreetingDone(channel, digest, w);
    RunAppend(a, b);
    VideoPartDone(Run(a).state, vpt, vssrc, w);
    RunAppend(a + b, d);
    AudioPartDone(Run(a + b).state, apt, assrc, w);
    DotLine(Run(a + b + d).state, w);
  }
}

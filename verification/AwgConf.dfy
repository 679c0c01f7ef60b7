/**
 The server configuration text: the provisioner's printer of `awg0.conf`, the peer blocks
 appended to it, and the parser of its [Interface] section.
 */
module AwgConf {
  import opened Wrappers
  import opened Text
  import opened Strings
  import opened Decimal
  import opened Addresses
  import opened Heredoc

  datatype Obfuscation = Obfuscation(
    jc: int, jmin: int, jmax: int, s1: int, s2: int, s3: int, s4: int, h1: int, h2: int, h3: int, h4: int,
    i1: int, i2: int, i3: int, i4: int, i5: int)

  // ---------- the printers ----------

  datatype InitConfig = InitConfig(privateKey: string, listenPort: int, subnet: string, obf: Obfuscation)

  function Field(key: string, value: string): string { key + " = " + value }

  /** The lines of the provisioner's format string. */
  function ConfLines(c: InitConfig): seq<string> {
    ["[Interface]"] + InterfaceLines(c)
  }

  function InterfaceLines(c: InitConfig): seq<string> {
    [Field("PrivateKey", c.privateKey),
     Field("Address", ServerIPFromSubnet(c.subnet) + "/24"),
     Field("ListenPort", Itoa(c.listenPort)),
     ""] + ObfuscationLines(c.obf, PRINTED)
  }

  /** The obfuscation values by name; only the first eleven are ever printed. */
  datatype Slot = Jc | Jmin | Jmax | S1 | S2 | S3 | S4 | H1 | H2 | H3 | H4 | I1 | I2 | I3 | I4 | I5

  const PRINTED := [Jc, Jmin, Jmax, S1, S2, S3, S4, H1, H2, H3, H4]

  function NameOf(s: Slot): (name: string)
    ensures 2 <= |name| <= 4 && forall i :: 0 <= i < |name| ==> IsWordChar(name[i])
  {
    match s
    case Jc => "Jc" case Jmin => "Jmin" case Jmax => "Jmax"
    case S1 => "S1" case S2 => "S2" case S3 => "S3" case S4 => "S4"
    case H1 => "H1" case H2 => "H2" case H3 => "H3" case H4 => "H4"
    case I1 => "I1" case I2 => "I2" case I3 => "I3" case I4 => "I4" case I5 => "I5"
  }

  function Get(o: Obfuscation, s: Slot): int {
    match s
    case Jc => o.jc case Jmin => o.jmin case Jmax => o.jmax
    case S1 => o.s1 case S2 => o.s2 case S3 => o.s3 case S4 => o.s4
    case H1 => o.h1 case H2 => o.h2 case H3 => o.h3 case H4 => o.h4
    case I1 => o.i1 case I2 => o.i2 case I3 => o.i3 case I4 => o.i4 case I5 => o.i5
  }

  function Set(o: Obfuscation, s: Slot, n: int): Obfuscation {
    match s
    case Jc => o.(jc := n) case Jmin => o.(jmin := n) case Jmax => o.(jmax := n)
    case S1 => o.(s1 := n) case S2 => o.(s2 := n) case S3 => o.(s3 := n) case S4 => o.(s4 := n)
    case H1 => o.(h1 := n) case H2 => o.(h2 := n) case H3 => o.(h3 := n) case H4 => o.(h4 := n)
    case I1 => o.(i1 := n) case I2 => o.(i2 := n) case I3 => o.(i3 := n) case I4 => o.(i4 := n) case I5 => o.(i5 := n)
  }

  function ObfuscationLines(o: Obfuscation, slots: seq<Slot>): seq<string> {
    if slots == [] then []
    else [Field(NameOf(slots[0]), Itoa(Get(o, slots[0])))] + ObfuscationLines(o, slots[1..])
  }

  /** The body of the provisioner's here-document: the text and one more newline. */
  function RenderedText(c: InitConfig): string { Unlines(ConfLines(c), '\n') + "\n" }

  const CONF_END := "AWGEOF"

  /** The file it leaves in the container. */
  function RenderedFile(c: InitConfig): string { Carried(RenderedText(c), CONF_END) }

  datatype PeerParams = PeerParams(publicKey: string, presharedKey: string, clientIP: string, keepalive: int)

  function PeerBlockLines(p: PeerParams): seq<string> {
    [Field("PublicKey", p.publicKey), Field("PresharedKey", p.presharedKey),
     Field("AllowedIPs", p.clientIP + "/32"), Field("PersistentKeepalive", Itoa(p.keepalive))]
  }

  /** buildPeerBlock. */
  function PeerBlock(p: PeerParams): string {
    "\n" + "[Peer]" + "\n" + Unlines(PeerBlockLines(p), '\n')
  }

  const PEER_END := "PEER"

  /** appendPeerBlock: the file gets what its here-document carries of the block. */
  function PeerAppended(raw: string, p: PeerParams): string { raw + Carried(PeerBlock(p), PEER_END) }

  /** The file after a number of peers were appended, oldest first. */
  function WithPeers(raw: string, peers: seq<PeerParams>): string {
    if peers == [] then raw else PeerAppended(WithPeers(raw, peers[..|peers| - 1]), peers[|peers| - 1])
  }

  /** The file with the blocks as they are printed behind it. */
  function WithPeerBlocks(raw: string, peers: seq<PeerParams>): string {
    if peers == [] then raw
    else WithPeerBlocks(raw, peers[..|peers| - 1]) + PeerBlock(peers[|peers| - 1])
  }

  // ---------- the parser ----------

  datatype ServerConfig = ServerConfig(address: string, listenPort: int, obf: Obfuscation)

  const NO_OBFUSCATION := Obfuscation(0, 0, 0, 0, 0, 0, 0, 0, 0, 0, 0, 0, 0, 0, 0, 0)
  const EMPTY_CONFIG := ServerConfig("", 0, NO_OBFUSCATION)

  datatype ConfError = NoInterfaceSection | BadListenPort(cause: ParseError)

  predicate IsHeader(trimmed: string) {
    trimmed != "" && trimmed[0] == '[' && trimmed[|trimmed| - 1] == ']'
  }

  /** The lines between a section's header and the next other header. */
  function SectionLines(lines: seq<string>, header: string, inSection: bool): seq<string> {
    if lines == [] then []
    else
      var trimmed := TrimSpace(lines[0]);
      if trimmed == header then SectionLines(lines[1..], header, true)
      else if IsHeader(trimmed) then
        if inSection then [] else SectionLines(lines[1..], header, false)
      else if inSection then [lines[0]] + SectionLines(lines[1..], header, true)
      else SectionLines(lines[1..], header, false)
  }

  function Section(raw: string, name: string): string {
    TrimNewlines(Unlines(SectionLines(Split(raw, '\n'), "[" + name + "]", false), '\n'))
  }

  method ExtractSection(raw: string, name: string) returns (section: string)
    ensures section == Section(raw, name)
  {
    var header := "[" + name + "]";
    var lines := Split(raw, '\n');
    var buf: seq<string> := [];
    var inSection := false;
    var i := 0;
    while i < |lines|
      invariant i <= |lines|
      invariant SectionLines(lines, header, false) == buf + SectionLines(lines[i..], header, inSection)
    {
      var trimmed := TrimSpace(lines[i]);
      if trimmed == header {
        inSection := true;
      } else if IsHeader(trimmed) {
        if inSection {
          break;
        }
      } else if inSection {
        buf := buf + [lines[i]];
      }
      i := i + 1;
    }
    assert SectionLines(lines, header, false) == buf;
    section := TrimNewlines(Unlines(buf, '\n'));
  }

  predicate IsWordChar(c: char) {
    'A' <= c <= 'Z' || 'a' <= c <= 'z' || '0' <= c <= '9' || c == '_'
  }

  function SkipRegexSpace(s: string): string {
    if s != "" && IsRegexSpace(s[0]) then SkipRegexSpace(s[1..]) else s
  }

  function WordLength(s: string): (n: nat)
    ensures n <= |s|
  {
    if s != "" && IsWordChar(s[0]) then 1 + WordLength(s[1..]) else 0
  }

  /** The regular expression: spaces, a word, spaces, an equals sign, and the rest as value. */
  function SplitKeyValue(line: string): Option<(string, string)> {
    var s := SkipRegexSpace(line);
    var n := WordLength(s);
    var rest := SkipRegexSpace(s[n..]);
    if n == 0 || rest == "" || rest[0] != '=' then None else Some((s[..n], TrimSpace(rest[1..])))
  }

  function AtoiOrZero(s: string): int { Atoi(s).value }

  /** The value a key of the switch names. */
  function SlotOf(key: string): Option<Slot> {
    match key
    case "Jc" => Some(Jc) case "Jmin" => Some(Jmin) case "Jmax" => Some(Jmax)
    case "S1" => Some(S1) case "S2" => Some(S2) case "S3" => Some(S3) case "S4" => Some(S4)
    case "H1" => Some(H1) case "H2" => Some(H2) case "H3" => Some(H3) case "H4" => Some(H4)
    case "I1" => Some(I1) case "I2" => Some(I2) case "I3" => Some(I3) case "I4" => Some(I4) case "I5" => Some(I5)
    case _ => None
  }

  /** What one key does to the configuration; keys that are not listed do nothing. */
  function Assign(c: ServerConfig, key: string, value: string): Result<ServerConfig, ConfError> {
    var n := Atoi(value);
    if key == "Address" then Ok(c.(address := value))
    else if key == "ListenPort" then
      if n.error.Some? then Err(BadListenPort(n.error.value)) else Ok(c.(listenPort := n.value))
    else if SlotOf(key).Some? then Ok(c.(obf := Set(c.obf, SlotOf(key).value, AtoiOrZero(value))))
    else Ok(c)
  }

  function ParseLine(c: ServerConfig, line: string): Result<ServerConfig, ConfError> {
    var t := TrimSpace(line);
    if t == "" || t[0] == '#' then Ok(c)
    else
      match SplitKeyValue(t)
      case None => Ok(c)
      case Some((key, value)) => Assign(c, key, value)
  }

  function ParseLines(c: ServerConfig, lines: seq<string>): Result<ServerConfig, ConfError>
    decreases lines
  {
    if lines == [] then Ok(c)
    else
      match ParseLine(c, lines[0])
      case Ok(next) => ParseLines(next, lines[1..])
      case Err(e) => Err(e)
  }

  function ParseInterface(raw: string): Result<ServerConfig, ConfError> {
    var section := Section(raw, "Interface");
    if section == "" then Err(NoInterfaceSection) else ParseLines(EMPTY_CONFIG, Split(section, '\n'))
  }

  method ParseInterfaceSection(raw: string) returns (r: Result<ServerConfig, ConfError>)
    ensures r == ParseInterface(raw)
  {
    var section := ExtractSection(raw, "Interface");
    if section == "" {
      return Err(NoInterfaceSection);
    }
    var lines := Split(section, '\n');
    var cfg := EMPTY_CONFIG;
    for i := 0 to |lines|
      invariant ParseLines(EMPTY_CONFIG, lines) == ParseLines(cfg, lines[i..])
    {
      var line := TrimSpace(lines[i]);
      if line == "" || line[0] == '#' {
        continue;
      }
      var kv := SplitKeyValue(line);
      if kv.None? {
        continue;
      }
      var next := Assign(cfg, kv.value.0, kv.value.1);
      if next.Err? {
        return next;
      }
      cfg := next.value;
    }
    r := Ok(cfg);
  }
}

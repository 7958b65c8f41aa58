/** Saving a configuration as text and loading it back (src/config/config.cpp). */
module ConfigFile {
  import opened Text
  import opened Config

  // ---- Keys ------------------------------------------------------------------

  datatype Key =
    | DeviceId | DisplayName | Platform | ListenPort | DiscoveryPort | EnableIPv6 | MaxMessageSize
    | ConnectTimeout | ReadTimeout | Keepalive | DiscoveryEnabled | PskHash | RequireAuth
    | LogLevel | LogFile

  function Name(k: Key): string {
    match k
    case DeviceId => "device_id" case DisplayName => "display_name" case Platform => "platform"
    case ListenPort => "listen_port" case DiscoveryPort => "discovery_port" case EnableIPv6 => "enable_ipv6"
    case MaxMessageSize => "max_message_size" case ConnectTimeout => "connect_timeout_secs"
    case ReadTimeout => "read_timeout_secs" case Keepalive => "keepalive_interval_secs"
    case DiscoveryEnabled => "discovery_enabled" case PskHash => "psk_hash" case RequireAuth => "require_auth"
    case LogLevel => "log_level" case LogFile => "log_file"
  }

  /** The chain of comparisons in `set`; None is an unknown key. */
  function KeyOf(s: string): Option<Key> {
    if s == "device_id" then Some(DeviceId)
    else if s == "display_name" then Some(DisplayName)
    else if s == "platform" then Some(Platform)
    else if s == "listen_port" then Some(ListenPort)
    else if s == "discovery_port" then Some(DiscoveryPort)
    else if s == "enable_ipv6" then Some(EnableIPv6)
    else if s == "max_message_size" then Some(MaxMessageSize)
    else if s == "connect_timeout_secs" then Some(ConnectTimeout)
    else if s == "read_timeout_secs" then Some(ReadTimeout)
    else if s == "keepalive_interval_secs" then Some(Keepalive)
    else if s == "discovery_enabled" then Some(DiscoveryEnabled)
    else if s == "psk_hash" then Some(PskHash)
    else if s == "require_auth" then Some(RequireAuth)
    else if s == "log_level" then Some(LogLevel)
    else if s == "log_file" then Some(LogFile)
    else None
  }

  lemma KeyOfName(k: Key)
    ensures KeyOf(Name(k)) == Some(k)
  {}

  /** A key has one name. */
  lemma NamesKey(s: string, k: Key)
    ensures KeyOf(s) == Some(k) <==> s == Name(k)
  {
    KeyOfName(k);
    if KeyOf(s) == Some(k) { OneName(s); }
  }

  lemma OneName(s: string)
    ensures KeyOf(s).Some? ==> s == Name(KeyOf(s).value)
  {
    hide Name;
    NameTexts();
  }

  /** The names of the keys in the file and for `set`. */
  lemma KeyTexts()
    ensures KeyOf("device_id") == Some(DeviceId) && KeyOf("display_name") == Some(DisplayName)
    ensures KeyOf("platform") == Some(Platform) && KeyOf("listen_port") == Some(ListenPort)
    ensures KeyOf("discovery_port") == Some(DiscoveryPort) && KeyOf("enable_ipv6") == Some(EnableIPv6)
    ensures KeyOf("max_message_size") == Some(MaxMessageSize) && KeyOf("connect_timeout_secs") == Some(ConnectTimeout)
    ensures KeyOf("read_timeout_secs") == Some(ReadTimeout) && KeyOf("keepalive_interval_secs") == Some(Keepalive)
    ensures KeyOf("discovery_enabled") == Some(DiscoveryEnabled) && KeyOf("psk_hash") == Some(PskHash)
    ensures KeyOf("require_auth") == Some(RequireAuth) && KeyOf("log_level") == Some(LogLevel)
    ensures KeyOf("log_file") == Some(LogFile)
  {
    hide KeyOf, Name;
    forall k ensures KeyOf(Name(k)) == Some(k) { KeyOfName(k); }
    NameTexts();
  }

  lemma NameTexts()
    ensures Name(DeviceId) == "device_id" && Name(DisplayName) == "display_name" && Name(Platform) == "platform"
    ensures Name(ListenPort) == "listen_port" && Name(DiscoveryPort) == "discovery_port"
    ensures Name(EnableIPv6) == "enable_ipv6" && Name(MaxMessageSize) == "max_message_size"
    ensures Name(ConnectTimeout) == "connect_timeout_secs" && Name(ReadTimeout) == "read_timeout_secs"
    ensures Name(Keepalive) == "keepalive_interval_secs" && Name(DiscoveryEnabled) == "discovery_enabled"
    ensures Name(PskHash) == "psk_hash" && Name(RequireAuth) == "require_auth"
    ensures Name(LogLevel) == "log_level" && Name(LogFile) == "log_file"
  {}

  // ---- Setting a field -------------------------------------------------------

  function Stoi(s: string): Option<int> { ParseSigned(s, -0x8000_0000, 0x7fff_ffff) }

  /** None is the exception of stoi or stoul. */
  function SetKey(c: AppConfig, k: Key, value: string): Option<AppConfig> {
    match k
    case DeviceId => Some(c.(deviceId := value))
    case DisplayName => Some(c.(displayName := value))
    case Platform => Some(c.(platform := value))
    case ListenPort => (match Stoi(value) case None => None case Some(n) => Some(c.(listenPort := n % 0x1_0000)))
    case DiscoveryPort => (match Stoi(value) case None => None case Some(n) => Some(c.(discoveryPort := n % 0x1_0000)))
    case EnableIPv6 => Some(c.(enableIPv6 := value == "true"))
    case MaxMessageSize => (match ParseUnsigned(value) case None => None
      case Some(n) => Some(c.(maxMessageSize := n % 0x1_0000_0000)))
    case ConnectTimeout => (match Stoi(value) case None => None case Some(n) => Some(c.(connectTimeoutSecs := n)))
    case ReadTimeout => (match Stoi(value) case None => None case Some(n) => Some(c.(readTimeoutSecs := n)))
    case Keepalive => (match Stoi(value) case None => None case Some(n) => Some(c.(keepaliveIntervalSecs := n)))
    case DiscoveryEnabled => Some(c.(discoveryEnabled := value == "true"))
    case PskHash => Some(c.(pskHash := value))
    case RequireAuth => Some(c.(requireAuth := value == "true"))
    case LogLevel => Some(c.(logLevel := value))
    case LogFile => Some(c.(logFile := value))
  }

  function SetField(c: AppConfig, key: string, value: string): Option<AppConfig> {
    match KeyOf(key)
    case None => Some(c)
    case Some(k) => SetKey(c, k, value)
  }

  function BoolText(b: bool): string { if b then "true" else "false" }

  /** What `save` writes behind the key. */
  function ValueText(c: AppConfig, k: Key): string {
    match k
    case DeviceId => c.deviceId case DisplayName => c.displayName case Platform => c.platform
    case ListenPort => ToDecimal(c.listenPort) case DiscoveryPort => ToDecimal(c.discoveryPort)
    case EnableIPv6 => BoolText(c.enableIPv6) case MaxMessageSize => ToDecimal(c.maxMessageSize)
    case ConnectTimeout => ToDecimal(c.connectTimeoutSecs) case ReadTimeout => ToDecimal(c.readTimeoutSecs)
    case Keepalive => ToDecimal(c.keepaliveIntervalSecs) case DiscoveryEnabled => BoolText(c.discoveryEnabled)
    case PskHash => c.pskHash case RequireAuth => BoolText(c.requireAuth)
    case LogLevel => c.logLevel case LogFile => c.logFile
  }

  // ---- The file --------------------------------------------------------------

  datatype Item = Section(name: string) | Blank | Entry(key: Key, value: string)

  function LineOf(i: Item): string {
    match i
    case Section(name) => "[" + name + "]"
    case Blank => ""
    case Entry(key, value) => Name(key) + " = " + value
  }

  function TextOf(items: seq<Item>): string {
    if items == [] then "" else LineOf(items[0]) + "\n" + TextOf(items[1..])
  }

  function Field(c: AppConfig, k: Key): Item { Entry(k, ValueText(c, k)) }

  function Identity(c: AppConfig): seq<Item> {
    [Section("identity"), Field(c, DeviceId), Field(c, DisplayName), Field(c, Platform), Blank]
  }

  function Network(c: AppConfig): seq<Item> {
    [Section("network"), Field(c, ListenPort), Field(c, DiscoveryPort), Field(c, EnableIPv6), Field(c, MaxMessageSize),
     Field(c, ConnectTimeout), Field(c, ReadTimeout), Field(c, Keepalive), Blank]
  }

  function Others(c: AppConfig): seq<Item> {
    [Section("discovery"), Field(c, DiscoveryEnabled), Blank, Section("security"), Field(c, PskHash),
     Field(c, RequireAuth), Blank, Section("logging"), Field(c, LogLevel), Field(c, LogFile)]
  }

  function SaveItems(c: AppConfig): seq<Item> { Identity(c) + Network(c) + Others(c) }

  // ---- Reading lines ---------------------------------------------------------

  function Newline(s: string): (n: nat)
    ensures n <= |s| && (n < |s| ==> s[n] == '\n') && forall i :: 0 <= i < n ==> s[i] != '\n'
  {
    if s == "" || s[0] == '\n' then 0
    else
      assert forall i :: 0 < i < |s| ==> s[i] == s[1..][i - 1];
      1 + Newline(s[1..])
  }

  /** The lines std::getline returns one after the other. */
  function Lines(text: string): seq<string>
    decreases |text|
  {
    if text == "" then []
    else
      var n := Newline(text);
      [text[..n]] + if n < |text| then Lines(text[n + 1..]) else []
  }

  predicate IsBlank(c: char) { c == ' ' || c == '\t' }

  function TrimLeft(s: string): (t: string)
    ensures |t| <= |s| && t == s[|s| - |t|..]
    ensures t == "" || !IsBlank(t[0])
  {
    if s != "" && IsBlank(s[0]) then
      var t := TrimLeft(s[1..]);
      assert s[1..][|s| - 1 - |t|..] == s[|s| - |t|..];
      t
    else
      assert s[0..] == s;
      s
  }

  function TrimRight(s: string): (t: string)
    ensures t <= s
    ensures t == "" || !IsBlank(t[|t| - 1])
  {
    if s != "" && IsBlank(s[|s| - 1]) then TrimRight(s[..|s| - 1]) else s
  }

  function Trim(s: string): string { TrimRight(TrimLeft(s)) }

  function LoadLine(c: AppConfig, line: string): Option<AppConfig> {
    if line == "" || line[0] == ';' || line[0] == '#' then Some(c)
    else if line[0] == '[' && line[|line| - 1] == ']' then Some(c)
    else match Find(line, "=")
      case None => Some(c)
      case Some(pos) => SetField(c, Trim(line[..pos]), Trim(line[pos + 1..]))
  }

  function LoadLines(c: AppConfig, lines: seq<string>): Option<AppConfig>
    decreases |lines|
  {
    if lines == [] then Some(c)
    else match LoadLine(c, lines[0])
      case None => None
      case Some(d) => LoadLines(d, lines[1..])
  }

  /** ensureDeviceId and ensureDisplayName. */
  function Ensured(c: AppConfig, uuid: string, hostname: string): AppConfig {
    var c1 := if c.deviceId == "" then c.(deviceId := uuid) else c;
    if c1.displayName == "" then c1.(displayName := if hostname == "" then "UnknownUser" else hostname) else c1
  }

  function Loaded(c: AppConfig, text: string, uuid: string, hostname: string): Option<AppConfig> {
    match LoadLines(c, Lines(text))
    case None => None
    case Some(d) => Some(Ensured(d, uuid, hostname))
  }

  // ---- What a line does ------------------------------------------------------

  /** One line of text that starts and ends with something other than a blank. */
  predicate Clean(v: string) {
    '\n' !in v && (v != "" ==> !IsBlank(v[0]) && !IsBlank(v[|v| - 1]))
  }

  lemma TrimIsClean(s: string)
    requires '\n' !in s
    ensures Clean(Trim(s))
  {}

  lemma TrimClean(v: string)
    requires Clean(v)
    ensures Trim(" " + v) == v
  {
    assert (" " + v)[1..] == v;
    assert TrimLeft(" " + v) == TrimLeft(v) == v;
  }

  predicate NameChar(c: char) { 'a' <= c <= 'z' || '0' <= c <= '9' || c == '_' }

  ghost predicate Plain(s: string) { s != "" && forall i :: 0 <= i < |s| ==> NameChar(s[i]) }

  lemma NamesPlain1()
    ensures Plain("device_id") && Plain("display_name") && Plain("platform") && Plain("listen_port")
    ensures Plain("discovery_port")
  {}

  lemma NamesPlain2()
    ensures Plain("enable_ipv6") && Plain("max_message_size") && Plain("connect_timeout_secs")
    ensures Plain("read_timeout_secs") && Plain("keepalive_interval_secs")
  {}

  lemma NamesPlain3()
    ensures Plain("discovery_enabled") && Plain("psk_hash") && Plain("require_auth") && Plain("log_level")
    ensures Plain("log_file")
  {}

  lemma NameIsPlain(k: Key)
    ensures Plain(Name(k))
  {
    hide Plain;
    NamesPlain1();
    NamesPlain2();
    NamesPlain3();
  }

  /** A line that starts with a key, however it goes on, sets that key. */
  lemma KeyLine(c: AppConfig, k: Key, rest: string)
    ensures LoadLine(c, Name(k) + " = " + rest) == SetKey(c, k, Trim(" " + rest))
  {
    hide SetKey, Trim, KeyOf, Name;
    var name := Name(k);
    NameIsPlain(k);
    KeyOfName(k);
    KeyTrimmed(name);
    KeyCut(name, rest);
  }

  lemma KeyTrimmed(name: string)
    requires Plain(name)
    ensures Trim(name + " ") == name
  {
    assert TrimLeft(name + " ") == name + " ";
    assert (name + " ")[..|name|] == name;
    assert TrimRight(name) == name;
  }

  lemma KeyCut(name: string, rest: string)
    requires Plain(name)
    ensures var line := name + " = " + rest;
      && line != "" && line[0] !in {';', '#', '['}
      && Find(line, "=") == Some(|name| + 1)
      && line[..|name| + 1] == name + " " && line[|name| + 2..] == " " + rest
  {
    var line := name + " = " + rest;
    assert line[0] == name[0];
    assert forall j :: 0 <= j < |name| ==> line[j] == name[j];
    assert line[|name|] == ' ' && line[|name| + 1] == '=';
    assert MatchAt(line, "=", |name| + 1);
    forall j | 0 <= j <= |name| ensures !MatchAt(line, "=", j) {
      assert j + 1 <= |line| && line[j..j + 1] == [line[j]];
    }
  }

  // ---- Lines of joined texts -------------------------------------------------

  lemma NewlineIs(s: string, n: nat)
    requires n < |s| && s[n] == '\n' && '\n' !in s[..n]
    ensures Newline(s) == n
  {
    hide Newline;
    assert forall i :: 0 <= i < n ==> s[i] == s[..n][i] != '\n';
    assert Newline(s) <= n;
  }

  lemma LinesStep(s: string, n: nat)
    requires n < |s| && s[n] == '\n' && '\n' !in s[..n]
    ensures Lines(s) == [s[..n]] + Lines(s[n + 1..])
  {
    NewlineIs(s, n);
  }

  lemma {:induction false} LinesJoin(a: string, b: string)
    ensures Lines(a + "\n" + b) == Lines(a + "\n") + Lines(b)
    decreases |a|
  {
    hide Newline, Lines;
    var s, t := a + "\n", a + "\n" + b;
    var n := Newline(a);
    assert s[..n] == t[..n] == a[..n];
    LinesStep(s, n);
    LinesStep(t, n);
    if n == |a| {
      assert s[n + 1..] == "" && t[n + 1..] == b;
      NoLines();
    } else {
      var rest := a[n + 1..];
      assert s[n + 1..] == rest + "\n" && t[n + 1..] == rest + "\n" + b;
      LinesJoin(rest, b);
    }
    assert [s[..n]] + Lines(s[n + 1..]) + Lines(b) == [s[..n]] + (Lines(s[n + 1..]) + Lines(b));
  }

  lemma NoLines()
    ensures Lines("") == []
  {}

  lemma OneLine(a: string)
    requires '\n' !in a
    ensures Lines(a + "\n") == [a]
  {
    assert (a + "\n")[..|a|] == a;
    NewlineIs(a + "\n", |a|);
    assert (a + "\n")[|a| + 1..] == "";
  }

  lemma {:induction false} LoadJoin(c: AppConfig, a: seq<string>, b: seq<string>)
    ensures LoadLines(c, a + b) == match LoadLines(c, a) case None => None case Some(d) => LoadLines(d, b)
    decreases |a|
  {
    hide LoadLine;
    if a == [] {
      assert a + b == b;
    } else {
      assert (a + b)[1..] == a[1..] + b;
      match LoadLine(c, a[0])
      case None =>
      case Some(d) => LoadJoin(d, a[1..], b);
    }
  }

  /** The first item of a text is read, then the rest. */
  lemma LoadNext(c: AppConfig, items: seq<Item>)
    requires items != []
    ensures LoadLines(c, Lines(TextOf(items))) ==
      match LoadLines(c, Lines(LineOf(items[0]) + "\n")) case None => None
      case Some(d) => LoadLines(d, Lines(TextOf(items[1..])))
  {
    hide LineOf, LoadLines, Lines;
    LinesJoin(LineOf(items[0]), TextOf(items[1..]));
    LoadJoin(c, Lines(LineOf(items[0]) + "\n"), Lines(TextOf(items[1..])));
  }

  lemma LoadOne(c: AppConfig, line: string)
    ensures LoadLines(c, [line]) == LoadLine(c, line)
  {
    hide LoadLine;
  }

  // ---- Values survive --------------------------------------------------------

  /** Both hold the same value under a key. */
  predicate Agree(a: AppConfig, b: AppConfig, k: Key) {
    match k
    case DeviceId => a.deviceId == b.deviceId case DisplayName => a.displayName == b.displayName
    case Platform => a.platform == b.platform case ListenPort => a.listenPort == b.listenPort
    case DiscoveryPort => a.discoveryPort == b.discoveryPort case EnableIPv6 => a.enableIPv6 == b.enableIPv6
    case MaxMessageSize => a.maxMessageSize == b.maxMessageSize
    case ConnectTimeout => a.connectTimeoutSecs == b.connectTimeoutSecs
    case ReadTimeout => a.readTimeoutSecs == b.readTimeoutSecs
    case Keepalive => a.keepaliveIntervalSecs == b.keepaliveIntervalSecs
    case DiscoveryEnabled => a.discoveryEnabled == b.discoveryEnabled case PskHash => a.pskHash == b.pskHash
    case RequireAuth => a.requireAuth == b.requireAuth case LogLevel => a.logLevel == b.logLevel
    case LogFile => a.logFile == b.logFile
  }

  lemma AgreeEverywhere(a: AppConfig, b: AppConfig)
    requires forall k :: Agree(a, b, k)
    ensures a == b
  {
    assert Agree(a, b, DeviceId) && Agree(a, b, DisplayName) && Agree(a, b, Platform);
    assert Agree(a, b, ListenPort) && Agree(a, b, DiscoveryPort) && Agree(a, b, EnableIPv6);
    assert Agree(a, b, MaxMessageSize) && Agree(a, b, ConnectTimeout) && Agree(a, b, ReadTimeout);
    assert Agree(a, b, Keepalive) && Agree(a, b, DiscoveryEnabled) && Agree(a, b, PskHash);
    assert Agree(a, b, RequireAuth) && Agree(a, b, LogLevel) && Agree(a, b, LogFile);
  }

  lemma PrintedIsRead(n: int)
    ensures -0x8000_0000 <= n < 0x8000_0000 ==> Stoi(ToDecimal(n)) == Some(n)
    ensures 0 <= n < 0x1_0000_0000 ==> ParseUnsigned(ToDecimal(n)) == Some(n)
  {
    hide ToDecimal, ReadNumber;
    ReadPrinted(n);
  }

  /** Setting a key to its printed value copies that field and no other. */
  lemma SetPrinted(d: AppConfig, c: AppConfig, k: Key)
    ensures var r := SetKey(d, k, ValueText(c, k));
      r.Some? && Agree(r.value, c, k) && forall j :: j != k ==> Agree(r.value, d, j)
  {
    hide Stoi, ParseUnsigned, ToDecimal;
    PrintedIsRead(c.listenPort);
    PrintedIsRead(c.discoveryPort);
    PrintedIsRead(c.maxMessageSize);
    PrintedIsRead(c.connectTimeoutSecs);
    PrintedIsRead(c.readTimeoutSecs);
    PrintedIsRead(c.keepaliveIntervalSecs);
  }

  /** What a value means under each kind of key: text is kept as it stands, only "true" is true, ports and the size
      wrap around at their width, and the other numbers are read as they are. A number that stoi or stoul rejects is
      an exception, and nothing else is. */
  lemma ValueMeaning(c: AppConfig, k: Key, value: string)
    ensures var r := SetKey(c, k, value);
      && (r.None? <==> (Signed(k) && Stoi(value).None?) || (k == MaxMessageSize && ParseUnsigned(value).None?))
      && (r.Some? ==> Means(r.value, k, value))
  {
    hide Stoi, ParseUnsigned;
  }

  predicate Signed(k: Key) { k in {ListenPort, DiscoveryPort, ConnectTimeout, ReadTimeout, Keepalive} }

  ghost predicate Means(c: AppConfig, k: Key, value: string) {
    match k
    case DeviceId => c.deviceId == value
    case DisplayName => c.displayName == value
    case Platform => c.platform == value
    case PskHash => c.pskHash == value
    case LogLevel => c.logLevel == value
    case LogFile => c.logFile == value
    case EnableIPv6 => c.enableIPv6 <==> value == "true"
    case DiscoveryEnabled => c.discoveryEnabled <==> value == "true"
    case RequireAuth => c.requireAuth <==> value == "true"
    case ListenPort => Wraps(Stoi(value), c.listenPort, 0x1_0000)
    case DiscoveryPort => Wraps(Stoi(value), c.discoveryPort, 0x1_0000)
    case MaxMessageSize => Wraps(ParseUnsigned(value), c.maxMessageSize, 0x1_0000_0000)
    case ConnectTimeout => Stoi(value) == Some(c.connectTimeoutSecs)
    case ReadTimeout => Stoi(value) == Some(c.readTimeoutSecs)
    case Keepalive => Stoi(value) == Some(c.keepaliveIntervalSecs)
  }

  /** The number read is `n` up to a multiple of the width. */
  predicate Wraps(read: Option<int>, n: int, width: int)
    requires width > 0
  {
    read.Some? && (read.value - n) % width == 0
  }

  /** stoi reads an int of 32 bits. */
  lemma StoiIs(s: string)
    ensures Stoi(s) == match ReadNumber(s)
      case None => None
      case Some((neg, m)) =>
        var n := if neg then 0 - m else m;
        if -0x8000_0000 <= n <= 0x7fff_ffff then Some(n) else None
  {
    hide ReadNumber;
  }

  /** Lines that leave the configuration alone. */
  lemma IgnoredLine(c: AppConfig, line: string)
    requires line == "" || line[0] in {';', '#'} || (line[0] == '[' && line[|line| - 1] == ']') || '=' !in line
    ensures LoadLine(c, line) == Some(c)
  {
    hide SetField, Trim;
    var pos := Find(line, "=");
    if pos.Some? { assert line[pos.value..pos.value + 1][0] == line[pos.value]; }
  }

  /** Trimming takes blanks and tabs from both ends, and all of them. */
  lemma TrimIs(s: string)
    ensures exists i: nat, j: nat :: Trims(s, i, j) && Trim(s) == s[i..j]
  {
    var t := TrimLeft(s);
    var u := TrimRight(t);
    LeftBlanks(s);
    RightBlanks(t);
    hide TrimLeft, TrimRight;
    var i := |s| - |t|;
    var j := i + |u|;
    assert Trim(s) == u == t[..|u|] == s[i..j];
    assert forall k :: i <= k < |s| ==> s[k] == t[k - i];
    assert Trims(s, i, j);
  }

  ghost predicate Trims(s: string, i: nat, j: nat) {
    && i <= j <= |s|
    && (forall k :: 0 <= k < i ==> s[k] == ' ' || s[k] == '\t')
    && (forall k :: j <= k < |s| ==> s[k] == ' ' || s[k] == '\t')
    && (i < j ==> s[i] != ' ' && s[i] != '\t' && s[j - 1] != ' ' && s[j - 1] != '\t')
  }

  lemma {:induction false} LeftBlanks(s: string)
    ensures forall k :: 0 <= k < |s| - |TrimLeft(s)| ==> s[k] == ' ' || s[k] == '\t'
  {
    if s != "" {
      LeftBlanks(s[1..]);
      assert forall k :: 0 < k < |s| ==> s[k] == s[1..][k - 1];
    }
  }

  lemma {:induction false} RightBlanks(s: string)
    ensures forall k :: |TrimRight(s)| <= k < |s| ==> s[k] == ' ' || s[k] == '\t'
  {
    if s != "" { RightBlanks(s[..|s| - 1]); }
  }

  /** A loaded configuration never lacks an identity; what the file gave is kept. */
  lemma IdentityEnsured(c: AppConfig, uuid: string, hostname: string)
    requires uuid != ""
    ensures var r := Ensured(c, uuid, hostname);
      && r == c.(deviceId := r.deviceId, displayName := r.displayName) && r.deviceId != "" && r.displayName != ""
      && r.deviceId == (if c.deviceId == "" then uuid else c.deviceId)
      && (c.displayName != "" ==> r.displayName == c.displayName)
      && (c.displayName == "" && hostname != "" ==> r.displayName == hostname)
      && (c.displayName == "" && hostname == "" ==> r.displayName == "UnknownUser")
  {}

  /** Setting a key, to whatever value, touches no other field. */
  lemma SetTouchesOne(c: AppConfig, k: Key, value: string)
    ensures var r := SetKey(c, k, value); r.Some? ==> forall j :: j != k ==> Agree(r.value, c, j)
  {
    hide Stoi, ParseUnsigned;
  }

  lemma AgreeSelf(c: AppConfig)
    ensures forall j :: Agree(c, c, j)
  {}

  predicate IsText(k: Key) { k in {DeviceId, DisplayName, Platform, PskHash, LogLevel, LogFile} }

  /** The strings of a configuration that fit on a line of the file. */
  ghost predicate TextsClean(c: AppConfig) { forall k :: IsText(k) ==> Clean(ValueText(c, k)) }

  predicate OwnItem(c: AppConfig, i: Item) {
    match i
    case Section(name) => '\n' !in name
    case Blank => true
    case Entry(k, value) => value == ValueText(c, k)
  }

  lemma NumbersClean(n: int)
    ensures Clean(ToDecimal(n))
  {
    hide ToDecimal;
  }

  lemma ValuesClean(c: AppConfig, k: Key)
    requires TextsClean(c)
    ensures Clean(ValueText(c, k))
  {
    hide ToDecimal, Clean;
    if !IsText(k) {
      NumbersClean(c.listenPort);
      NumbersClean(c.discoveryPort);
      NumbersClean(c.maxMessageSize);
      NumbersClean(c.connectTimeoutSecs);
      NumbersClean(c.readTimeoutSecs);
      NumbersClean(c.keepaliveIntervalSecs);
      assert Clean("true") && Clean("false") by { BoolsClean(); }
    }
  }

  lemma BoolsClean()
    ensures Clean("true") && Clean("false")
  {}

  lemma EntryLoaded(d: AppConfig, c: AppConfig, k: Key)
    requires TextsClean(c)
    ensures LoadLines(d, Lines(LineOf(Field(c, k)) + "\n")) == SetKey(d, k, ValueText(c, k))
  {
    hide *;
    var v := ValueText(c, k);
    ValuesClean(c, k);
    TrimClean(v);
    KeyLine(d, k, v);
    FieldLine(c, k);
    LineIsOne(k, v);
    OneLine(Name(k) + " = " + v);
    LoadOne(d, Name(k) + " = " + v);
  }

  lemma FieldLine(c: AppConfig, k: Key)
    ensures LineOf(Field(c, k)) == Name(k) + " = " + ValueText(c, k)
  {
    hide Name, ValueText;
  }

  /** How sections, gaps and values are written. */
  lemma LinesWritten(c: AppConfig, name: string)
    ensures LineOf(Section(name)) == "[" + name + "]" && LineOf(Blank) == ""
    ensures ValueText(c, RequireAuth) == (if c.requireAuth then "true" else "false")
    ensures ValueText(c, EnableIPv6) == (if c.enableIPv6 then "true" else "false")
    ensures ValueText(c, DiscoveryEnabled) == (if c.discoveryEnabled then "true" else "false")
    ensures ValueText(c, ListenPort) == ToDecimal(c.listenPort) && ValueText(c, PskHash) == c.pskHash
  {
    hide ToDecimal;
  }

  lemma LineIsOne(k: Key, v: string)
    requires Clean(v)
    ensures '\n' !in Name(k) + " = " + v
  {
    hide Name;
    NameIsPlain(k);
  }

  lemma OtherLoaded(d: AppConfig, i: Item)
    requires !i.Entry? && (i.Section? ==> '\n' !in i.name)
    ensures LoadLines(d, Lines(LineOf(i) + "\n")) == Some(d)
  {
    hide Lines, LoadLines, SetField, Trim;
    var line := LineOf(i);
    OneLine(line);
    LoadOne(d, line);
    if i.Section? { assert line[0] == '[' && line[|line| - 1] == ']'; }
  }

  /** Every field written under a clean value agrees afterwards, and none is spoilt. */
  lemma {:induction false} ItemsLoaded(d: AppConfig, c: AppConfig, items: seq<Item>)
    requires TextsClean(c) && forall i :: i in items ==> OwnItem(c, i)
    ensures var r := LoadLines(d, Lines(TextOf(items)));
      r.Some? && forall k :: Agree(d, c, k) || Field(c, k) in items ==> Agree(r.value, c, k)
    decreases |items|
  {
    hide TextsClean, Lines, LineOf, LoadLines, SetKey, ValueText, Agree;
    if items == [] {
      NothingLoaded(d);
    } else {
      LoadNext(d, items);
      var i := items[0];
      assert OwnItem(c, i);
      if i.Entry? {
        assert i == Field(c, i.key);
        EntryLoaded(d, c, i.key);
        SetPrinted(d, c, i.key);
        var e := SetKey(d, i.key, ValueText(c, i.key)).value;
        ItemsLoaded(e, c, items[1..]);
        forall k | Agree(d, c, k) || Field(c, k) in items ensures Agree(e, c, k) || Field(c, k) in items[1..] {
          if k != i.key { AgreeVia(e, d, c, k); }
        }
      } else {
        OtherLoaded(d, i);
        ItemsLoaded(d, c, items[1..]);
      }
    }
  }

  lemma AgreeVia(a: AppConfig, b: AppConfig, c: AppConfig, k: Key)
    requires Agree(a, b, k)
    ensures Agree(b, c, k) ==> Agree(a, c, k)
  {}

  lemma NothingLoaded(d: AppConfig)
    ensures LoadLines(d, Lines(TextOf([]))) == Some(d)
  {}

  // ---- Only clean values survive ---------------------------------------------

  /** Whatever a line holds, the strings it leaves behind are clean. */
  lemma LineKeepsClean(c: AppConfig, line: string, k: Key)
    requires '\n' !in line && IsText(k) && LoadLine(c, line).Some?
    ensures Clean(ValueText(c, k)) ==> Clean(ValueText(LoadLine(c, line).value, k))
  {
    hide SetKey, KeyOf, Trim, Clean, ValueText;
    var pos := Find(line, "=");
    if pos.Some? {
      var v := Trim(line[pos.value + 1..]);
      TrimIsClean(line[pos.value + 1..]);
      var j := KeyOf(Trim(line[..pos.value]));
      if j.Some? && SetKey(c, j.value, v).Some? { SetKeepsClean(c, j.value, v, k); }
    }
  }

  lemma SetKeepsClean(c: AppConfig, j: Key, v: string, k: Key)
    requires IsText(k) && SetKey(c, j, v).Some? && Clean(v)
    ensures j == k || Clean(ValueText(c, k)) ==> Clean(ValueText(SetKey(c, j, v).value, k))
  {
    hide Clean, Stoi, ParseUnsigned;
  }

  ghost predicate LineTexts(lines: seq<string>) { forall l :: l in lines ==> '\n' !in l }

  lemma {:induction false} LinesAreLines(text: string)
    ensures LineTexts(Lines(text))
    decreases |text|
  {
    hide Newline;
    if text != "" {
      var n := Newline(text);
      var tail := if n < |text| then Lines(text[n + 1..]) else [];
      assert Lines(text) == [text[..n]] + tail;
      if n < |text| { LinesAreLines(text[n + 1..]); }
    }
  }

  lemma {:induction false} LinesKeepClean(c: AppConfig, lines: seq<string>, k: Key)
    requires IsText(k) && LineTexts(lines) && LoadLines(c, lines).Some? && Clean(ValueText(c, k))
    ensures Clean(ValueText(LoadLines(c, lines).value, k))
    decreases |lines|
  {
    hide Clean, ValueText, LoadLine;
    if lines != [] {
      LineKeepsClean(c, lines[0], k);
      LinesKeepClean(LoadLine(c, lines[0]).value, lines[1..], k);
    }
  }

  /** Even a value that spills over several lines leaves a clean one under its key. */
  lemma EntryLeavesClean(d: AppConfig, k: Key, v: string)
    requires IsText(k)
    ensures var r := LoadLines(d, Lines(LineOf(Entry(k, v)) + "\n"));
      r.Some? ==> Clean(ValueText(r.value, k))
  {
    hide Clean, ValueText, LoadLine, SetKey, Lines, Trim, Name;
    var lines := Lines(LineOf(Entry(k, v)) + "\n");
    var rest := FirstLine(k, v);
    KeyLine(d, k, rest);
    TrimIsClean(" " + rest);
    LinesAreLines(LineOf(Entry(k, v)) + "\n");
    if LoadLines(d, lines).Some? {
      SetKeepsClean(d, k, Trim(" " + rest), k);
      LinesKeepClean(SetKey(d, k, Trim(" " + rest)).value, lines[1..], k);
    }
  }

  lemma FirstLine(k: Key, v: string) returns (rest: string)
    ensures '\n' !in rest
    ensures var lines := Lines(LineOf(Entry(k, v)) + "\n");
      |lines| > 0 && lines[0] == Name(k) + " = " + rest
  {
    hide Name;
    var head := Name(k) + " = ";
    NameIsPlain(k);
    var n := Newline(v);
    rest := v[..n];
    var t := head + v + "\n";
    assert t[..|head| + n] == head + rest;
    NewlineIs(t, |head| + n);
  }

  lemma {:induction false} ItemsLeaveClean(d: AppConfig, items: seq<Item>, k: Key)
    requires IsText(k) && LoadLines(d, Lines(TextOf(items))).Some?
    requires Clean(ValueText(d, k)) || exists i :: i in items && i.Entry? && i.key == k
    ensures Clean(ValueText(LoadLines(d, Lines(TextOf(items))).value, k))
    decreases |items|
  {
    hide Clean, ValueText, LineOf, LoadLines, Lines;
    if items == [] {
      NothingLoaded(d);
    } else {
      LoadNext(d, items);
      var i := items[0];
      var e := LoadLines(d, Lines(LineOf(i) + "\n")).value;
      if i.Entry? && i.key == k {
        EntryLeavesClean(d, k, i.value);
      } else if Clean(ValueText(d, k)) {
        LinesAreLines(LineOf(i) + "\n");
        LinesKeepClean(d, Lines(LineOf(i) + "\n"), k);
      }
      ItemsLeaveClean(e, items[1..], k);
    }
  }

  // ---- The round trip --------------------------------------------------------

  lemma SaveItemsAre(c: AppConfig)
    ensures |SaveItems(c)| == 24
    ensures SaveItems(c)[0] == Section("identity") && SaveItems(c)[1] == Field(c, DeviceId)
    ensures SaveItems(c)[2] == Field(c, DisplayName) && SaveItems(c)[3] == Field(c, Platform)
    ensures SaveItems(c)[4] == Blank
    ensures SaveItems(c)[5] == Section("network") && SaveItems(c)[6] == Field(c, ListenPort)
    ensures SaveItems(c)[7] == Field(c, DiscoveryPort) && SaveItems(c)[8] == Field(c, EnableIPv6)
    ensures SaveItems(c)[9] == Field(c, MaxMessageSize) && SaveItems(c)[10] == Field(c, ConnectTimeout)
    ensures SaveItems(c)[11] == Field(c, ReadTimeout) && SaveItems(c)[12] == Field(c, Keepalive)
    ensures SaveItems(c)[13] == Blank
    ensures SaveItems(c)[14] == Section("discovery") && SaveItems(c)[15] == Field(c, DiscoveryEnabled)
    ensures SaveItems(c)[16] == Blank && SaveItems(c)[17] == Section("security")
    ensures SaveItems(c)[18] == Field(c, PskHash) && SaveItems(c)[19] == Field(c, RequireAuth)
    ensures SaveItems(c)[20] == Blank && SaveItems(c)[21] == Section("logging")
    ensures SaveItems(c)[22] == Field(c, LogLevel) && SaveItems(c)[23] == Field(c, LogFile)
  {
    hide ValueText, Field;
    var a, b, o := Identity(c), Network(c), Others(c);
    assert SaveItems(c) == a + b + o && |a| == 5 && |b| == 9 && |o| == 10;
  }

  lemma SavesEveryField(c: AppConfig, k: Key)
    ensures Field(c, k) in SaveItems(c)
  {
    hide SaveItems, ValueText;
    SaveItemsAre(c);
  }

  lemma OwnSections(c: AppConfig)
    ensures forall i :: i in Identity(c) ==> OwnItem(c, i)
    ensures forall i :: i in Network(c) ==> OwnItem(c, i)
  {
    hide ValueText;
  }

  lemma OwnOthers(c: AppConfig)
    ensures forall i :: i in Others(c) ==> OwnItem(c, i)
  {
    hide ValueText;
  }

  lemma SavesOwnItems(c: AppConfig)
    ensures forall i :: i in SaveItems(c) ==> OwnItem(c, i)
  {
    hide Identity, Network, Others, OwnItem;
    OwnSections(c);
    OwnOthers(c);
  }

  /** Whatever the object held before, loading what `save` wrote gives back the saved configuration exactly when
      each string fits on a line and the two identities are not empty. */
  lemma ConfigRoundTrip(before: AppConfig, c: AppConfig, uuid: string, hostname: string)
    requires Clean(uuid) && uuid != "" && Clean(hostname)
    ensures Loaded(before, TextOf(SaveItems(c)), uuid, hostname) == Some(c)
      <==> TextsClean(c) && c.deviceId != "" && c.displayName != ""
  {
    hide SaveItems, Lines, LoadLines, Clean;
    var r := LoadLines(before, Lines(TextOf(SaveItems(c))));
    if TextsClean(c) {
      SavedIsLoaded(before, c);
    }
    if r.Some? {
      ResultClean(before, c, r.value);
      EnsuredClean(r.value, uuid, hostname);
    }
  }

  lemma SavedIsLoaded(before: AppConfig, c: AppConfig)
    requires TextsClean(c)
    ensures LoadLines(before, Lines(TextOf(SaveItems(c)))) == Some(c)
  {
    hide *;
    SavesOwnItems(c);
    ItemsLoaded(before, c, SaveItems(c));
    var r := LoadLines(before, Lines(TextOf(SaveItems(c))));
    forall k ensures Agree(r.value, c, k) { SavesEveryField(c, k); }
    AgreeEverywhere(r.value, c);
  }

  lemma ResultClean(before: AppConfig, c: AppConfig, d: AppConfig)
    requires LoadLines(before, Lines(TextOf(SaveItems(c)))) == Some(d)
    ensures TextsClean(d)
  {
    hide SaveItems, Lines, LoadLines, Clean, ValueText, TextOf, IsText;
    forall k | IsText(k) ensures Clean(ValueText(d, k)) {
      SavesEveryField(c, k);
      ItemsLeaveClean(before, SaveItems(c), k);
    }
  }

  lemma EnsuredClean(d: AppConfig, uuid: string, hostname: string)
    requires TextsClean(d) && Clean(uuid) && uuid != "" && Clean(hostname)
    ensures var e := Ensured(d, uuid, hostname);
      TextsClean(e) && e.deviceId != "" && e.displayName != ""
  {
    assert Clean("UnknownUser");
    hide Clean;
    var e := Ensured(d, uuid, hostname);
    forall k | IsText(k) ensures Clean(ValueText(e, k)) {
      assert Clean(ValueText(d, k));
    }
  }

  lemma {:induction false} TextSnoc(items: seq<Item>, i: Item)
    ensures TextOf(items + [i]) == TextOf(items) + (LineOf(i) + "\n")
    decreases |items|
  {
    hide LineOf;
    if items == [] {
      assert [i][1..] == [];
    } else {
      assert (items + [i])[1..] == items[1..] + [i];
      TextSnoc(items[1..], i);
    }
  }

  lemma TextOfNone()
    ensures TextOf([]) == ""
  {}

  // ---- Lines that say nothing ------------------------------------------------

  /** A line that is no comment and no section header and whose key `set` knows. */
  predicate Setting(line: string) {
    && line != "" && line[0] != ';' && line[0] != '#' && !(line[0] == '[' && line[|line| - 1] == ']')
    && Find(line, "=").Some? && KeyOf(Trim(line[..Find(line, "=").value])).Some?
  }

  function Settings(lines: seq<string>): seq<string> {
    if lines == [] then []
    else (if Setting(lines[0]) then [lines[0]] else []) + Settings(lines[1..])
  }

  /** Comments, section headers, lines without `=` and unknown keys make no difference anywhere in the file. */
  lemma {:induction false} OnlySettingsMatter(c: AppConfig, lines: seq<string>)
    ensures LoadLines(c, lines) == LoadLines(c, Settings(lines))
    decreases |lines|
  {
    hide KeyOf, SetKey, Trim, Find;
    if lines != [] {
      var rest := Settings(lines[1..]);
      assert ([lines[0]] + rest)[1..] == rest && [] + rest == rest;
      if LoadLine(c, lines[0]).Some? { OnlySettingsMatter(LoadLine(c, lines[0]).value, lines[1..]); }
    }
  }

  /** Loading got as far as line `n`, which throws, and left `d`. */
  ghost predicate StoppedAt(c: AppConfig, lines: seq<string>, n: int, d: AppConfig) {
    0 <= n < |lines| && LoadLines(c, lines[..n]) == Some(d) && LoadLine(d, lines[n]).None?
  }

  lemma NextLine(c: AppConfig, lines: seq<string>, n: nat, d: AppConfig)
    requires n < |lines| && LoadLines(c, lines[..n]) == Some(d)
    ensures LoadLines(c, lines[..n + 1]) == LoadLine(d, lines[n])
    ensures LoadLine(d, lines[n]).None? ==> LoadLines(c, lines).None?
  {
    hide LoadLine;
    LoadOne(d, lines[n]);
    assert lines[..n + 1] == lines[..n] + [lines[n]];
    LoadJoin(c, lines[..n], [lines[n]]);
    assert lines == lines[..n + 1] + lines[n + 1..];
    LoadJoin(c, lines[..n + 1], lines[n + 1..]);
  }

  function RestAfter(rest: string): string {
    var n := Newline(rest);
    if n < |rest| then rest[n + 1..] else ""
  }

  lemma CutLine(text: string, n: nat, rest: string)
    requires rest != "" && n <= |Lines(text)| && Lines(rest) == Lines(text)[n..]
    ensures n < |Lines(text)| && Lines(text)[n] == rest[..Newline(rest)]
    ensures Lines(RestAfter(rest)) == Lines(text)[n + 1..] && |RestAfter(rest)| < |rest|
  {
    var head := [rest[..Newline(rest)]];
    var tail := if Newline(rest) < |rest| then Lines(rest[Newline(rest) + 1..]) else [];
    assert Lines(rest) == head + tail;
    assert tail == Lines(RestAfter(rest));
    assert (head + tail)[0] == head[0] && (head + tail)[1..] == tail;
    assert Lines(text)[n..][1..] == Lines(text)[n + 1..];
  }

  lemma LoadNone(c: AppConfig)
    ensures LoadLines(c, []) == Some(c)
  {}

  lemma Stops(c: AppConfig, lines: seq<string>, n: nat, d: AppConfig, uuid: string, hostname: string)
    requires n < |lines| && LoadLines(c, lines[..n]) == Some(d) && LoadLine(d, lines[n]).None?
    ensures StoppedAt(c, lines, n, d)
    ensures forall text :: Lines(text) == lines ==> Loaded(c, text, uuid, hostname).None?
  {
    hide LoadLine, LoadLines, Lines;
    NextLine(c, lines, n, d);
  }

  lemma LoadedIs(c: AppConfig, text: string, d: AppConfig, uuid: string, hostname: string)
    requires LoadLines(c, Lines(text)) == Some(d)
    ensures Loaded(c, text, uuid, hostname) == Some(Ensured(d, uuid, hostname))
  {
    hide LoadLines, Lines, Ensured;
  }

  // ---- The object ------------------------------------------------------------

  class ConfigStore {
    var config: AppConfig
    var file: string

    constructor (config: AppConfig, file: string)
      ensures this.config == config && this.file == file
    {
      this.config, this.file := config, file;
    }

    method Set(key: string, value: string) returns (thrown: bool, known: bool)
      modifies this`config
      ensures thrown <==> SetField(old(config), key, value).None?
      ensures config == if thrown then old(config) else SetField(old(config), key, value).value
      ensures known <==> KeyOf(key).Some?
      ensures forall j :: KeyOf(key) != Some(j) ==> Agree(config, old(config), j)
    {
      hide KeyOf, SetKey, Agree;
      AgreeSelf(config);
      var k := KeyOf(key);
      if k.None? { return false, false; }
      var r := SetKey(config, k.value, value);
      if r.None? { return true, true; }
      SetTouchesOne(config, k.value, value);
      config := r.value;
      return false, true;
    }

    /** Appends one line to the file; the ghost arguments say which line of the whole it is. */
    method Put(ghost items: seq<Item>, ghost n: nat, i: Item)
      requires n < |items| && items[n] == i && file == TextOf(items[..n])
      modifies this`file
      ensures file == TextOf(items[..n + 1])
    {
      hide TextOf, LineOf;
      file := file + (LineOf(i) + "\n");
      TextSnoc(items[..n], i);
      assert items[..n + 1] == items[..n] + [i];
    }

    method Save()
      modifies this`file
      ensures file == TextOf(SaveItems(config))
    {
      hide TextOf, ValueText, SaveItems;
      SaveItemsAre(config);
      file := "";
      ghost var items := SaveItems(config);
      assert TextOf(items[..0]) == "" by { TextOfNone(); }
      Put(items, 0, Section("identity"));
      Put(items, 1, Field(config, DeviceId));
      Put(items, 2, Field(config, DisplayName));
      Put(items, 3, Field(config, Platform));
      Put(items, 4, Blank);
      Put(items, 5, Section("network"));
      Put(items, 6, Field(config, ListenPort));
      Put(items, 7, Field(config, DiscoveryPort));
      Put(items, 8, Field(config, EnableIPv6));
      Put(items, 9, Field(config, MaxMessageSize));
      Put(items, 10, Field(config, ConnectTimeout));
      Put(items, 11, Field(config, ReadTimeout));
      Put(items, 12, Field(config, Keepalive));
      Put(items, 13, Blank);
      Put(items, 14, Section("discovery"));
      Put(items, 15, Field(config, DiscoveryEnabled));
      Put(items, 16, Blank);
      Put(items, 17, Section("security"));
      Put(items, 18, Field(config, PskHash));
      Put(items, 19, Field(config, RequireAuth));
      Put(items, 20, Blank);
      Put(items, 21, Section("logging"));
      Put(items, 22, Field(config, LogLevel));
      Put(items, 23, Field(config, LogFile));
      assert items[..24] == items;
    }

    /** The getline loop, then the two fields that must not stay empty. An exception of stoi or stoul leaves
        the lines before the bad one applied. */
    method Load(uuid: string, hostname: string) returns (thrown: bool)
      modifies this`config
      ensures thrown <==> Loaded(old(config), file, uuid, hostname).None?
      ensures !thrown ==> Some(config) == Loaded(old(config), file, uuid, hostname)
      ensures thrown ==> exists n :: StoppedAt(old(config), Lines(file), n, config)
    {
      hide *;
      var rest := file;
      ghost var lines := Lines(file);
      ghost var done: nat := 0;
      LoadNone(config);
      assert lines[..0] == [] && lines[0..] == lines;
      while rest != ""
        invariant done <= |lines| && Lines(rest) == lines[done..]
        invariant LoadLines(old(config), lines[..done]) == Some(config)
        decreases |rest|
      {
        CutLine(file, done, rest);
        NextLine(old(config), lines, done, config);
        var bad := Read(rest[..Newline(rest)]);
        if bad {
          Stops(old(config), lines, done, config, uuid, hostname);
          return true;
        }
        rest := RestAfter(rest);
        done := done + 1;
      }
      NoLines();
      assert lines[..done] == lines;
      LoadedIs(old(config), file, config, uuid, hostname);
      config := Ensured(config, uuid, hostname);
      return false;
    }

    /** The body of the loop. */
    method Read(line: string) returns (thrown: bool)
      modifies this`config
      ensures thrown <==> LoadLine(old(config), line).None?
      ensures config == if thrown then old(config) else LoadLine(old(config), line).value
    {
      hide KeyOf, SetKey, Trim;
      if line == "" || line[0] == ';' || line[0] == '#' { return false; }
      if line[0] == '[' && line[|line| - 1] == ']' { return false; }
      var pos := Find(line, "=");
      if pos.None? { return false; }
      var known;
      thrown, known := Set(Trim(line[..pos.value]), Trim(line[pos.value + 1..]));
    }
  }
}

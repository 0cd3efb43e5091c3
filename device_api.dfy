/** The device client of src/utils/deviceAPI.ts: the two stored settings (device IP
    and access token), the requests built for `GET /state` and `POST /command`, the
    rules deciding which responses are accepted, and the six command encoders.
    The browser's localStorage is an in-memory map; `fetch` is a function from the
    request to what the network and `response.json()` produced. */
module DeviceApi {
  import opened Wrappers
  import opened Text
  import opened Types

  const DeviceIpKey := "esp8266_ip"
  const AccessTokenKey := "deviceAccessToken"

  /** `localStorage.getItem(key)`. */
  function GetItem(items: map<string, string>, key: string): Option<string> {
    if key in items then Some(items[key]) else None
  }

  /** JavaScript truthiness of a stored value: `null` and `""` are false. */
  predicate Truthy(v: Option<string>) {
    v.Some? && v.value != ""
  }

  /** `getAPIBaseURL()` given what is stored under the IP key. */
  function BaseUrl(savedIp: Option<string>): (url: string)
    ensures Truthy(savedIp) <==> url != ""
  {
    if Truthy(savedIp) then "http://" + savedIp.value else ""
  }

  // ---------------------------------------------------------------------------
  // Requests
  // ---------------------------------------------------------------------------

  datatype HttpMethod = Get | Post

  /** The body `JSON.stringify({ cmd })`, kept as its one field. */
  datatype CommandBody = CommandBody(cmd: string)

  datatype Request = Request(
    httpMethod: HttpMethod,
    url: string,
    headers: map<string, string>,
    body: Option<CommandBody>)

  /** The headers both requests carry, for the token read from storage. */
  function Headers(token: Option<string>): (h: map<string, string>)
    ensures "Content-Type" in h && h["Content-Type"] == "application/json"
    ensures "Authorization" in h <==> Truthy(token)
    ensures "Authorization" in h ==> h["Authorization"] == "Bearer " + token.value
    ensures h.Keys <= {"Content-Type", "Authorization"}
  {
    var base := map["Content-Type" := "application/json"];
    if Truthy(token) then base["Authorization" := "Bearer " + token.value] else base
  }

  /** `command.startsWith('/') ? command.substring(1) : command`. */
  function StripLeadingSlash(command: string): string {
    if |command| > 0 && command[0] == '/' then command[1..] else command
  }

  /** The request `getDeviceState` sends, for the stored IP and token. */
  function StateRequest(savedIp: Option<string>, token: Option<string>): Request {
    Request(Get, BaseUrl(savedIp) + "/state", Headers(token), None)
  }

  /** The request `sendCommand(command)` sends, for the stored IP and token. */
  function CommandRequest(savedIp: Option<string>, token: Option<string>, command: string): Request {
    Request(Post, BaseUrl(savedIp) + "/command", Headers(token), Some(CommandBody(StripLeadingSlash(command))))
  }

  /** Exactly one leading '/' goes: `"/x"` becomes `"x"`, `"//x"` becomes `"/x"`, and text
      without one is kept. */
  lemma StripOneSlash(command: string)
    ensures StripLeadingSlash("/" + command) == command
    ensures (command == [] || command[0] != '/') ==> StripLeadingSlash(command) == command
  {
    assert ("/" + command)[1..] == command;
  }

  /** A command written with or without its leading '/' produces the same request. */
  lemma SlashedCommandSameRequest(savedIp: Option<string>, token: Option<string>, command: string)
    requires command == [] || command[0] != '/'
    ensures CommandRequest(savedIp, token, "/" + command) == CommandRequest(savedIp, token, command)
  {
    StripOneSlash(command);
  }

  /** Where the state request goes and what it carries. */
  lemma StateRequestShape(savedIp: Option<string>, token: Option<string>)
    ensures var q := StateRequest(savedIp, token);
      && q.httpMethod == Get && q.body == None
      && q.url == (if Truthy(savedIp) then "http://" + savedIp.value + "/state" else "/state")
      && ("Authorization" in q.headers <==> Truthy(token))
  {
  }

  /** Where the command request goes and what it carries. */
  lemma CommandRequestShape(savedIp: Option<string>, token: Option<string>, command: string)
    ensures var q := CommandRequest(savedIp, token, command);
      && q.httpMethod == Post
      && q.url == (if Truthy(savedIp) then "http://" + savedIp.value + "/command" else "/command")
      && ("Authorization" in q.headers <==> Truthy(token))
      && q.body.Some?
      && (|command| > 0 && command[0] == '/' ==> "/" + q.body.value.cmd == command)
      && (command == [] || command[0] != '/' ==> q.body.value.cmd == command)
  {
  }

  // ---------------------------------------------------------------------------
  // Responses
  // ---------------------------------------------------------------------------

  /** What `response.json()` produced: the decoded body, or the error it threw. */
  datatype Decoded<T> = Parsed(value: T) | Unparsable(error: Thrown)

  /** What `fetch` produced: a rejection (network failure), or a response with its `ok`
      flag, status code and body. */
  datatype Fetched<T> = Rejected(reason: Thrown) | Resolved(ok: bool, status: int, body: Decoded<T>)

  function HttpErrorMessage(status: int): string {
    "HTTP error! status: " + DecimalString(status)
  }

  const SuccessFalseMessage := "API returned success: false"

  /** How `getDeviceState` settles for what `fetch` produced. */
  function AcceptState(f: Fetched<StateResponse>): (r: Outcome<DeviceState>)
    ensures r.Fulfilled? <==> f.Resolved? && f.ok && f.body.Parsed? && f.body.value.success
    ensures r.Fulfilled? ==> r.value == f.body.value.state
    ensures f.Rejected? ==> r == Failed(f.reason)
    ensures f.Resolved? && !f.ok ==> r == Failed(ErrorObject(HttpErrorMessage(f.status)))
    ensures f.Resolved? && f.ok && f.body.Unparsable? ==> r == Failed(f.body.error)
    ensures f.Resolved? && f.ok && f.body.Parsed? && !f.body.value.success ==>
      r == Failed(ErrorObject(SuccessFalseMessage))
  {
    match f
    case Rejected(reason) => Failed(reason)
    case Resolved(ok, status, body) =>
      if !ok then Failed(ErrorObject(HttpErrorMessage(status)))
      else match body
        case Unparsable(error) => Failed(error)
        case Parsed(data) =>
          if !data.success then Failed(ErrorObject(SuccessFalseMessage)) else Fulfilled(data.state)
  }

  /** How `sendCommand` settles for what `fetch` produced: only the status is checked. */
  function AcceptCommand(f: Fetched<CommandResponse>): (r: Outcome<CommandResponse>)
    ensures r.Fulfilled? <==> f.Resolved? && f.ok && f.body.Parsed?
    ensures r.Fulfilled? ==> r.value == f.body.value
    ensures f.Rejected? ==> r == Failed(f.reason)
    ensures f.Resolved? && !f.ok ==> r == Failed(ErrorObject(HttpErrorMessage(f.status)))
    ensures f.Resolved? && f.ok && f.body.Unparsable? ==> r == Failed(f.body.error)
  {
    match f
    case Rejected(reason) => Failed(reason)
    case Resolved(ok, status, body) =>
      if !ok then Failed(ErrorObject(HttpErrorMessage(status)))
      else match body
        case Unparsable(error) => Failed(error)
        case Parsed(data) => Fulfilled(data)
  }

  /** The two acceptance rules differ only on `success`: for the same envelope, an accepted
      state response means an accepted command response, and a command whose answer says
      `success: false` is still accepted where the state request is refused. */
  lemma StateRuleStricter(ok: bool, status: int, success: bool, state: DeviceState, message: string)
    ensures AcceptState(Resolved(ok, status, Parsed(StateResponse(success, state)))).Fulfilled? ==>
      AcceptCommand(Resolved(ok, status, Parsed(CommandResponse(success, message)))).Fulfilled?
    ensures ok && !success ==>
      && AcceptState(Resolved(ok, status, Parsed(StateResponse(success, state)))).Failed?
      && AcceptCommand(Resolved(ok, status, Parsed(CommandResponse(success, message))))
         == Fulfilled(CommandResponse(false, message))
  {
  }

  /** The HTTP error text names the status, so two different statuses never give the same
      message. */
  lemma HttpErrorMessageInjective(s1: int, s2: int)
    requires HttpErrorMessage(s1) == HttpErrorMessage(s2)
    ensures s1 == s2
  {
    var p := "HTTP error! status: ";
    assert HttpErrorMessage(s1)[|p|..] == DecimalString(s1);
    assert HttpErrorMessage(s2)[|p|..] == DecimalString(s2);
    DecimalStringInjective(s1, s2);
  }

  // ---------------------------------------------------------------------------
  // Command encoders
  // ---------------------------------------------------------------------------

  /** The six canned commands: `setPower`, `setRGB`, `setBrightness`, `setEffect`,
      `setScene` and `restartDevice`. */
  datatype DeviceCommand =
    | Power(on: bool)
    | SetRgb(r: int, g: int, b: int)
    | Brightness(level: int)
    | Effect(id: int)
    | Scene(name: string)
    | Restart

  /** The text each encoder hands to `sendCommand`; numbers are printed as
      template literals print them, nothing is clamped or lower-cased. */
  function Encode(c: DeviceCommand): string {
    match c
    case Power(on) => if on then "power on" else "power off"
    case SetRgb(r, g, b) => "rgb " + DecimalString(r) + " " + DecimalString(g) + " " + DecimalString(b)
    case Brightness(level) => "brightness " + DecimalString(level)
    case Effect(id) => "effect " + DecimalString(id)
    case Scene(name) => "scene " + name
    case Restart => "restart"
  }

  /** The encoders neither clamp numbers nor change the case of a scene name. */
  lemma EncoderExamples()
    ensures Encode(Power(true)) == "power on" && Encode(Power(false)) == "power off"
    ensures Encode(SetRgb(300, -1, 0)) == "rgb 300 -1 0"
    ensures Encode(Brightness(200)) == "brightness 200"
    ensures Encode(Effect(3)) == "effect 3"
    ensures Encode(Scene("Party")) == "scene Party"
    ensures Encode(Restart) == "restart"
  {
    DivideByBase(300, 10);
    DivideByBase(30, 10);
    DivideByBase(200, 10);
    DivideByBase(20, 10);
  }

  predicate HasPrefix(s: string, p: string) {
    |p| <= |s| && s[..|p|] == p
  }

  /** Splits at the first space: the text before it and the text after it. */
  function SplitAtSpace(s: string): (string, Option<string>)
    decreases |s|
  {
    if s == [] then ([], None)
    else if s[0] == ' ' then ([], Some(s[1..]))
    else var (w, rest) := SplitAtSpace(s[1..]); ([s[0]] + w, rest)
  }

  /** A reading of the command vocabulary the device accepts, used to show that the
      encoders never confuse two commands. */
  function ParseCommand(s: string): Option<DeviceCommand> {
    if s == "power on" then Some(Power(true))
    else if s == "power off" then Some(Power(false))
    else if s == "restart" then Some(Restart)
    else if HasPrefix(s, "rgb ") then
      var (w1, rest1) := SplitAtSpace(s[4..]);
      if rest1.None? then None
      else
        var (w2, rest2) := SplitAtSpace(rest1.value);
        if rest2.None? then None
        else
          match (ParseDecimal(w1), ParseDecimal(w2), ParseDecimal(rest2.value))
          case (Some(r), Some(g), Some(b)) => Some(SetRgb(r, g, b))
          case _ => None
    else if HasPrefix(s, "brightness ") then
      match ParseDecimal(s[11..])
      case Some(n) => Some(Brightness(n))
      case None => None
    else if HasPrefix(s, "effect ") then
      match ParseDecimal(s[7..])
      case Some(n) => Some(Effect(n))
      case None => None
    else if HasPrefix(s, "scene ") then
      Some(Scene(s[6..]))
    else
      None
  }

  lemma {:induction false} SplitAtSpaceOf(w: string, rest: string)
    requires forall k :: 0 <= k < |w| ==> w[k] != ' '
    ensures SplitAtSpace(w + " " + rest) == (w, Some(rest))
    decreases |w|
  {
    if w == [] {
      assert w + " " + rest == " " + rest;
      assert (" " + rest)[1..] == rest;
    } else {
      SplitAtSpaceOf(w[1..], rest);
      assert (w + " " + rest)[1..] == w[1..] + " " + rest;
      assert [w[0]] + w[1..] == w;
    }
  }

  lemma DecimalHasNoSpace(n: int)
    ensures forall k :: 0 <= k < |DecimalString(n)| ==> DecimalString(n)[k] != ' '
  {
    DecimalStringChars(n);
  }

  lemma RgbReadsBack(r: int, g: int, b: int)
    ensures ParseCommand(Encode(SetRgb(r, g, b))) == Some(SetRgb(r, g, b))
  {
    var s := Encode(SetRgb(r, g, b));
    var dr, dg, db := DecimalString(r), DecimalString(g), DecimalString(b);
    assert s == "rgb " + (dr + " " + (dg + " " + db));
    assert s[0] == 'r' && s[1] == 'g';
    assert HasPrefix(s, "rgb ");
    assert s[4..] == dr + " " + (dg + " " + db);
    DecimalHasNoSpace(r);
    DecimalHasNoSpace(g);
    SplitAtSpaceOf(dr, dg + " " + db);
    SplitAtSpaceOf(dg, db);
    DecimalRoundTrip(r);
    DecimalRoundTrip(g);
    DecimalRoundTrip(b);
  }

  lemma NumberCommandReadsBack(c: DeviceCommand)
    requires c.Brightness? || c.Effect?
    ensures ParseCommand(Encode(c)) == Some(c)
  {
    var s := Encode(c);
    if c.Brightness? {
      assert s[0] == 'b';
      assert HasPrefix(s, "brightness ") && s[11..] == DecimalString(c.level);
      DecimalRoundTrip(c.level);
    } else {
      assert s[0] == 'e';
      assert HasPrefix(s, "effect ") && s[7..] == DecimalString(c.id);
      DecimalRoundTrip(c.id);
    }
  }

  lemma SceneReadsBack(name: string)
    ensures ParseCommand(Encode(Scene(name))) == Some(Scene(name))
  {
    var s := Encode(Scene(name));
    assert s[0] == 's';
    assert HasPrefix(s, "scene ") && s[6..] == name;
  }

  /** Every encoded command reads back as itself, so no two commands share a text. */
  lemma EncodeRoundTrip(c: DeviceCommand)
    ensures ParseCommand(Encode(c)) == Some(c)
  {
    match c
    case Power(on) =>
    case Restart =>
    case SetRgb(r, g, b) => RgbReadsBack(r, g, b);
    case Brightness(_) => NumberCommandReadsBack(c);
    case Effect(_) => NumberCommandReadsBack(c);
    case Scene(name) => SceneReadsBack(name);
  }

  lemma EncodeInjective(c1: DeviceCommand, c2: DeviceCommand)
    requires Encode(c1) == Encode(c2)
    ensures c1 == c2
  {
    EncodeRoundTrip(c1);
    EncodeRoundTrip(c2);
  }

  /** No encoded command begins with '/', so `sendCommand` forwards it unchanged. */
  lemma EncodedCommandSentVerbatim(savedIp: Option<string>, token: Option<string>, c: DeviceCommand)
    ensures CommandRequest(savedIp, token, Encode(c)).body == Some(CommandBody(Encode(c)))
  {
    var s := Encode(c);
    assert s[0] != '/';
  }

  // ---------------------------------------------------------------------------
  // The stored settings and the calls that read them
  // ---------------------------------------------------------------------------

  /** The browser storage the module reads and writes. */
  class DeviceStorage {
    var items: map<string, string>

    constructor (initial: map<string, string>)
      ensures items == initial
    {
      items := initial;
    }

    method GetDeviceIP() returns (ip: Option<string>)
      ensures ip == GetItem(items, DeviceIpKey)
    {
      ip := GetItem(items, DeviceIpKey);
    }

    /** Stores the text as given: no trimming and no validation. */
    method SetDeviceIP(ip: string)
      modifies this
      ensures items == old(items)[DeviceIpKey := ip]
      ensures GetItem(items, DeviceIpKey) == Some(ip)
      ensures GetItem(items, AccessTokenKey) == GetItem(old(items), AccessTokenKey)
    {
      items := items[DeviceIpKey := ip];
    }

    method ClearDeviceIP()
      modifies this
      ensures items == old(items) - {DeviceIpKey}
      ensures GetItem(items, DeviceIpKey) == None
      ensures GetItem(items, AccessTokenKey) == GetItem(old(items), AccessTokenKey)
    {
      items := items - {DeviceIpKey};
    }

    method GetAccessToken() returns (token: Option<string>)
      ensures token == GetItem(items, AccessTokenKey)
    {
      token := GetItem(items, AccessTokenKey);
    }

    method SetAccessToken(token: string)
      modifies this
      ensures items == old(items)[AccessTokenKey := token]
      ensures GetItem(items, AccessTokenKey) == Some(token)
      ensures GetItem(items, DeviceIpKey) == GetItem(old(items), DeviceIpKey)
    {
      items := items[AccessTokenKey := token];
    }

    method ClearAccessToken()
      modifies this
      ensures items == old(items) - {AccessTokenKey}
      ensures GetItem(items, AccessTokenKey) == None
      ensures GetItem(items, DeviceIpKey) == GetItem(old(items), DeviceIpKey)
    {
      items := items - {AccessTokenKey};
    }

    /** `getDeviceState()`: reads the token and the IP, sends the state request, and
        settles by the state acceptance rule. */
    method GetDeviceState(fetch: Request -> Fetched<StateResponse>) returns (r: Outcome<DeviceState>)
      ensures var q := StateRequest(GetItem(items, DeviceIpKey), GetItem(items, AccessTokenKey));
        r == AcceptState(fetch(q))
    {
      var token := GetAccessToken();
      var ip := GetDeviceIP();
      var response := fetch(Request(Get, BaseUrl(ip) + "/state", Headers(token), None));
      r := AcceptState(response);
    }

    /** `sendCommand(command)`: the same, for the command request and its rule. */
    method SendCommand(command: string, fetch: Request -> Fetched<CommandResponse>)
      returns (r: Outcome<CommandResponse>)
      ensures var q := CommandRequest(GetItem(items, DeviceIpKey), GetItem(items, AccessTokenKey), command);
        r == AcceptCommand(fetch(q))
    {
      var token := GetAccessToken();
      var clean := StripLeadingSlash(command);
      var ip := GetDeviceIP();
      var response := fetch(Request(Post, BaseUrl(ip) + "/command", Headers(token), Some(CommandBody(clean))));
      r := AcceptCommand(response);
    }

    /** The six encoder helpers: each sends its command text and settles as `sendCommand`. */
    method SendDeviceCommand(c: DeviceCommand, fetch: Request -> Fetched<CommandResponse>)
      returns (r: Outcome<CommandResponse>)
      ensures var q := CommandRequest(GetItem(items, DeviceIpKey), GetItem(items, AccessTokenKey), Encode(c));
        r == AcceptCommand(fetch(q)) && q.body == Some(CommandBody(Encode(c)))
    {
      EncodedCommandSentVerbatim(GetItem(items, DeviceIpKey), GetItem(items, AccessTokenKey), c);
      r := SendCommand(Encode(c), fetch);
    }
  }

  /** After storing an IP, requests go to `http://<ip>` unless the IP is empty; after
      clearing it they go to a relative URL. The token is untouched either way. */
  lemma BaseUrlAfterStore(items: map<string, string>, ip: string)
    ensures BaseUrl(GetItem(items[DeviceIpKey := ip], DeviceIpKey)) == (if ip == "" then "" else "http://" + ip)
    ensures BaseUrl(GetItem(items - {DeviceIpKey}, DeviceIpKey)) == ""
    ensures GetItem(items[DeviceIpKey := ip], AccessTokenKey) == GetItem(items, AccessTokenKey)
    ensures GetItem(items - {DeviceIpKey}, AccessTokenKey) == GetItem(items, AccessTokenKey)
  {
  }

  /** Storing or clearing the token never changes where requests go. */
  lemma TokenLeavesIp(items: map<string, string>, token: string)
    ensures GetItem(items[AccessTokenKey := token], DeviceIpKey) == GetItem(items, DeviceIpKey)
    ensures GetItem(items - {AccessTokenKey}, DeviceIpKey) == GetItem(items, DeviceIpKey)
    ensures var h := Headers(GetItem(items[AccessTokenKey := token], AccessTokenKey));
      if token == "" then "Authorization" !in h else "Authorization" in h && h["Authorization"] == "Bearer " + token
  {
  }
}

/** Values every other module is built from: optional values, the JSON values a
    document may hold, and instants.

    Instants are whole microseconds, the resolution of the program's own
    timestamps. The calendar text of an instant (RFC 3339 section 5.6) is left
    abstract: a `Calendar` is any reader of strings together with any writer of
    whole milliseconds that the reader understands. A text may name an instant that
    its offset carries past the first or the last year there is: it can be read and
    compared, but moving it to UTC overflows. */
module Wire {

  datatype Option<+T> = None | Some(value: T)

  /** A member name. The words the program itself looks up are constructors, so
      that they are different by construction; any other name is its text. */
  datatype Name =
    | ExtensionVersion         // extension_version
    | NodeId                   // node_id
    | BootId                   // boot_id
    | Sequence                 // sequence
    | IssuedAt                 // issued_at
    | ExpiresAt                // expires_at
    | Extensions               // extensions
    | ProtocolVersion          // protocolVersion
    | Capabilities             // capabilities
    | Experimental             // experimental
    | PresenceLease            // presenceLease
    | ModernHeartbeat          // com.dougfirlabs/heartbeat
    | Resources                // resources
    | Subscribe                // subscribe
    | ListChanged              // listChanged
    | ServerInfo               // serverInfo
    | ClientInfo               // clientInfo
    | Instructions             // instructions
    | Named                    // name
    | Uri                      // uri
    | Method                   // method
    | Params                   // params
    | Meta                     // _meta
    | MetaProtocolVersion      // io.modelcontextprotocol/protocolVersion
    | MetaClientInfo           // io.modelcontextprotocol/clientInfo
    | MetaClientCapabilities   // io.modelcontextprotocol/clientCapabilities
    | JsonRpc                  // jsonrpc
    | RequestId                // id
    | Other(text: string)

  /** Whether the written name carries a dot. */
  predicate Dotted(name: Name) {
    match name
    case Other(text) => '.' in text
    case ModernHeartbeat => true
    case MetaProtocolVersion => true
    case MetaClientInfo => true
    case MetaClientCapabilities => true
    case _ => false
  }

  /** A parsed JSON value. `Null` is kept apart from an absent member, because
      the program's `dict.get` does not tell them apart while its `in` does. */
  datatype Json =
    | Null
    | Bool(b: bool)
    | Int(n: int)
    | Float(text: string)
    | Str(s: string)
    | Arr(items: seq<Json>)
    | Obj(members: map<Name, Json>)

  /** `dict.get(key)`: an absent member and a null one both read as `Null`. */
  function Get(members: map<Name, Json>, key: Name): Json {
    if key in members then members[key] else Null
  }

  const MILLISECOND := 1_000
  const SECOND := 1_000_000

  /** What survives of an instant on the wire: whole milliseconds. */
  function FloorMs(t: int): int {
    t - t % MILLISECOND
  }

  /** What a text says: nothing, an instant, or one that UTC has no date for. */
  datatype Stamp = Unreadable | Instant(at: int) | Beyond(at: int)

  datatype Calendar = Calendar(read: string -> Stamp, write: int -> string)

  /** The reader understands what the writer wrote, and refuses the empty text. */
  ghost predicate Lawful(cal: Calendar) {
    && cal.read("") == Unreadable
    && forall ms: int :: cal.read(cal.write(ms)) == Instant(ms * MILLISECOND)
  }

  /** `format_rfc3339`: milliseconds, truncated. */
  function FormatRfc3339(cal: Calendar, t: int): Json {
    Str(cal.write(t / MILLISECOND))
  }

  /** `parse_rfc3339`; `Unreadable` stands for the `ValueError` it raises, and
      `Beyond` for the `OverflowError`. */
  function ParseRfc3339(cal: Calendar, value: Json): Stamp {
    if value.Str? && value.s != "" then cal.read(value.s) else Unreadable
  }

  /** Writing an instant and reading it back loses exactly the microseconds
      below the millisecond, and two instants have the same text exactly when
      they lie in the same millisecond. */
  lemma TextKeepsMilliseconds(cal: Calendar, t: int, u: int)
    requires Lawful(cal)
    ensures ParseRfc3339(cal, FormatRfc3339(cal, t)) == Instant(FloorMs(t))
    ensures FormatRfc3339(cal, t) == FormatRfc3339(cal, u) <==> FloorMs(t) == FloorMs(u)
  {
    assert cal.read(cal.write(t / MILLISECOND)) == Instant(t / MILLISECOND * MILLISECOND);
    assert cal.read(cal.write(u / MILLISECOND)) == Instant(u / MILLISECOND * MILLISECOND);
    assert FloorMs(t) == t / MILLISECOND * MILLISECOND;
    assert FloorMs(u) == u / MILLISECOND * MILLISECOND;
  }

  /** A lawful calendar exists, one with an instant beyond the last year too, so
      nothing proved about every lawful calendar is empty: write a millisecond count
      in unary, negative counts on the odd lengths. */
  lemma LawfulCalendarExists() returns (cal: Calendar, beyond: string)
    ensures Lawful(cal) && cal.read(beyond).Beyond?
  {
    var write := (ms: int) => seq(if ms >= 0 then 2 * ms + 2 else -2 * ms - 1, _ => '1');
    var read := (s: string) =>
      if s == "" then Unreadable
      else if s[0] != '1' then Beyond(0)
      else if |s| % 2 == 0 then Instant((|s| / 2 - 1) * MILLISECOND)
      else Instant((-(|s| + 1) / 2) * MILLISECOND);
    cal, beyond := Calendar(read, write), "9";
    forall ms: int ensures cal.read(cal.write(ms)) == Instant(ms * MILLISECOND) {
      assert |write(ms)| == if ms >= 0 then 2 * ms + 2 else -2 * ms - 1;
    }
  }
}

/** Extended inquiry response data and its out-of-band block (Bluetooth Core Specification,
    Volume 3, Part C, section 8): the fields a block is built from, and the meaning of a block as
    the effect of its fields, one after the other. */
module Eir {
  import opened Octets
  import opened Options

  const MAX_EIR_LENGTH := 240
  const OOB_MIN := 8
  const PNP_INFO := 0x1200
  const MAX_NAME := 48

  const FLAGS: byte := 0x01
  const UUID16_SOME: byte := 0x02
  const UUID16_ALL: byte := 0x03
  const UUID32_SOME: byte := 0x04
  const UUID32_ALL: byte := 0x05
  const UUID128_SOME: byte := 0x06
  const UUID128_ALL: byte := 0x07
  const NAME_SHORT: byte := 0x08
  const NAME_COMPLETE: byte := 0x09
  const TX_POWER: byte := 0x0a
  const CLASS_OF_DEV: byte := 0x0d
  const SSP_HASH: byte := 0x0e
  const SSP_RANDOMIZER: byte := 0x0f
  const DEVICE_ID: byte := 0x10
  const GAP_APPEARANCE: byte := 0x19

  type Key = s: seq<byte> | |s| == 16 witness seq(16, _ => 0)
  type Word = n: nat | n < 0x1_0000

  datatype Uuid = Uuid16(short: Word) | Uuid32(long: nat) | Uuid128(full: Key)

  // ---------------------------------------------------------------- reading

  datatype EirData = EirData(
    addr: Address,
    flags: int,
    txPower: int,
    classOfDevice: nat,
    appearance: nat,
    name: Option<seq<byte>>,
    nameComplete: bool,
    hash: Option<Key>,
    randomizer: Option<Key>,
    services: seq<Uuid>)

  function NoData(): EirData {
    EirData(seq(6, _ => 0), 0, 0, 0, 0, None, false, None, None, [])
  }

  function ListOf16(data: seq<byte>): (us: seq<Uuid>)
    ensures |us| == |data| / 2
  {
    seq(|data| / 2, i requires 0 <= i < |data| / 2 => Uuid16(Value16(data[2 * i..2 * i + 2])))
  }

  function ListOf32(data: seq<byte>): (us: seq<Uuid>)
    ensures |us| == |data| / 4
  {
    seq(|data| / 4, i requires 0 <= i < |data| / 4 => Uuid32(Value32(data[4 * i..4 * i + 4])))
  }

  function ListOf128(data: seq<byte>): (us: seq<Uuid>)
    ensures |us| == |data| / 16
  {
    seq(|data| / 16, i requires 0 <= i < |data| / 16 => Uuid128(Reverse(data[16 * i..16 * i + 16])))
  }

  function StripNuls(s: seq<byte>): (r: seq<byte>)
    ensures |r| <= |s| && r == s[..|r|]
    ensures r == [] || r[|r| - 1] != 0
    ensures forall k :: |r| <= k < |s| ==> s[k] == 0
  {
    if s != [] && s[|s| - 1] == 0 then StripNuls(s[..|s| - 1]) else s
  }

  function Signed(b: byte): int {
    if b < 128 then b else b - 256
  }

  /** What one field does to the data read so far; fields of other types do nothing. */
  function Apply(e: EirData, kind: byte, data: seq<byte>): EirData {
    if kind == UUID16_SOME || kind == UUID16_ALL then e.(services := e.services + ListOf16(data))
    else if kind == UUID32_SOME || kind == UUID32_ALL then e.(services := e.services + ListOf32(data))
    else if kind == UUID128_SOME || kind == UUID128_ALL then e.(services := e.services + ListOf128(data))
    else if kind == FLAGS then (if |data| > 0 then e.(flags := data[0]) else e)
    else if kind == NAME_SHORT || kind == NAME_COMPLETE then
      e.(name := Some(StripNuls(data)), nameComplete := kind == NAME_COMPLETE)
    else if kind == TX_POWER then (if |data| > 0 then e.(txPower := Signed(data[0])) else e)
    else if kind == CLASS_OF_DEV then (if |data| >= 3 then e.(classOfDevice := Value24(data)) else e)
    else if kind == GAP_APPEARANCE then (if |data| >= 2 then e.(appearance := Value16(data)) else e)
    else if kind == SSP_HASH then (if |data| >= 16 then e.(hash := Some(data[..16])) else e)
    else if kind == SSP_RANDOMIZER then (if |data| >= 16 then e.(randomizer := Some(data[..16])) else e)
    else e
  }

  /** The block ends early at a zero length, at a lone byte, or at a field longer than what is left. */
  predicate Stops(data: seq<byte>) {
    |data| < 2 || data[0] == 0 || data[0] + 1 > |data|
  }

  function ParseFields(e: EirData, data: seq<byte>): EirData
    decreases |data|
  {
    if Stops(data) then e
    else ParseFields(Apply(e, data[1], data[2..data[0] + 1]), data[data[0] + 1..])
  }

  function Parse(e: EirData, data: seq<byte>): EirData {
    ParseFields(e.(flags := -1, txPower := 127), data)
  }

  /** The optional length is narrowed to eight bits on its way to the field parser. */
  function OptionalPart(block: seq<byte>): (r: seq<byte>)
    requires |block| >= OOB_MIN
    ensures |block| <= OOB_MIN + 255 ==> r == block[8..]
  {
    block[8..8 + (|block| - OOB_MIN) % 256]
  }

  function ParseOob(e: EirData, block: seq<byte>): Option<EirData> {
    if |block| < OOB_MIN || |block| != Value16(block) then None
    else
      var e' := e.(addr := block[2..8]);
      Some(if |block| > OOB_MIN then Parse(e', OptionalPart(block)) else e')
  }

  // ---------------------------------------------------------------- writing

  datatype Field = Field(kind: byte, payload: seq<byte>)

  predicate Encodable(f: Field) {
    |f.payload| < 255
  }

  function Encode(f: Field): seq<byte>
    requires Encodable(f)
  {
    [|f.payload| + 1, f.kind] + f.payload
  }

  predicate AllEncodable(fs: seq<Field>) {
    forall i :: 0 <= i < |fs| ==> Encodable(fs[i])
  }

  function EncodeAll(fs: seq<Field>): seq<byte>
    requires AllEncodable(fs)
  {
    if fs == [] then [] else Encode(fs[0]) + EncodeAll(fs[1..])
  }

  function ApplyAll(e: EirData, fs: seq<Field>): EirData
    decreases |fs|
  {
    if fs == [] then e else ApplyAll(Apply(e, fs[0].kind, fs[0].payload), fs[1..])
  }

  /** What a device publishes out of band. The name is a C string. */
  datatype Oob = Oob(
    addr: Address,
    name: seq<byte>,
    classOfDevice: nat,
    hash: Option<Key>,
    randomizer: Option<Key>,
    vendor: Word,
    product: Word,
    version: Word,
    source: Word,
    uuids: seq<Uuid>)

  predicate ValidOob(o: Oob) {
    o.classOfDevice < 0x1_0000_0000 && 0 !in o.name
  }

  function ClassFields(o: Oob): seq<Field> {
    if o.classOfDevice > 0 then [Field(CLASS_OF_DEV, Le24(o.classOfDevice))] else []
  }

  function KeyFields(kind: byte, key: Option<Key>): seq<Field> {
    match key
    case None => []
    case Some(k) => [Field(kind, k)]
  }

  function NameFields(o: Oob): seq<Field> {
    if o.name == [] then []
    else if |o.name| > MAX_NAME then [Field(NAME_SHORT, o.name[..MAX_NAME])]
    else [Field(NAME_COMPLETE, o.name)]
  }

  function IdFields(o: Oob): seq<Field> {
    if o.vendor != 0 then
      [Field(DEVICE_ID, Le16(o.source) + Le16(o.vendor) + Le16(o.product) + Le16(o.version))]
    else []
  }

  /** Everything before the service lists. */
  function FixedFields(o: Oob): (fs: seq<Field>)
    ensures AllEncodable(fs)
  {
    ClassFields(o) + KeyFields(SSP_HASH, o.hash) + KeyFields(SSP_RANDOMIZER, o.randomizer) + NameFields(o)
    + IdFields(o)
  }

  predicate Eligible16(u: Uuid) {
    u.Uuid16? && u.short >= 0x1100 && u.short != PNP_INFO
  }

  function Shorts(us: seq<Uuid>): seq<Word> {
    if us == [] then []
    else if Eligible16(us[0]) then [us[0].short] + Shorts(us[1..])
    else Shorts(us[1..])
  }

  function Fulls(us: seq<Uuid>): seq<Key> {
    if us == [] then []
    else if us[0].Uuid128? then [us[0].full] + Fulls(us[1..])
    else Fulls(us[1..])
  }

  /** One pass over the candidates: stop at the first that finds no room, skip those already kept. */
  function Collect<T(==)>(list: seq<T>, kept: seq<T>, room: nat): (r: (seq<T>, bool))
    ensures |r.0| <= |kept| || |r.0| <= room
    decreases |list|
  {
    if list == [] then (kept, false)
    else if |kept| >= room then (kept, true)
    else Collect(list[1..], if list[0] in kept then kept else kept + [list[0]], room)
  }

  /** How many elements of `size` bytes fit behind `used` bytes and a two byte header. */
  function Room(used: nat, size: nat): nat
    requires size > 0
  {
    if used + 2 > MAX_EIR_LENGTH then 0 else (MAX_EIR_LENGTH - 2 - used) / size
  }

  function Bytes16(vs: seq<Word>): (r: seq<byte>)
    ensures |r| == 2 * |vs|
  {
    if vs == [] then [] else Bytes16(vs[..|vs| - 1]) + Le16(vs[|vs| - 1])
  }

  function Bytes128(vs: seq<Key>): (r: seq<byte>)
    ensures |r| == 16 * |vs|
  {
    if vs == [] then [] else Bytes128(vs[..|vs| - 1]) + Reverse(vs[|vs| - 1])
  }

  function Kept16(o: Oob): (seq<Word>, bool) {
    Collect(Shorts(o.uuids), [], Room(|EncodeAll(FixedFields(o))|, 2))
  }

  /** No list is written when nothing was kept, even if something was left out. */
  function Fields16(o: Oob): (fs: seq<Field>)
    ensures AllEncodable(fs)
  {
    var (vs, truncated) := Kept16(o);
    if vs == [] then [] else [Field(if truncated then UUID16_SOME else UUID16_ALL, Bytes16(vs))]
  }

  function Kept128(o: Oob, used: nat): (seq<Key>, bool) {
    Collect(Fulls(o.uuids), [], Room(used, 16))
  }

  /** With room for its header the longer list is written even empty, to say that something was left out;
      without, it is not written at all. */
  function Fields128(o: Oob, used: nat): (fs: seq<Field>)
    ensures AllEncodable(fs)
  {
    var (vs, truncated) := Kept128(o, used);
    if used > MAX_EIR_LENGTH - 2 || (vs == [] && !truncated) then []
    else [Field(if truncated then UUID128_SOME else UUID128_ALL, Bytes128(vs))]
  }

  function OobFields(o: Oob): (fs: seq<Field>)
    ensures AllEncodable(fs)
  {
    var short := FixedFields(o) + Fields16(o);
    short + Fields128(o, |EncodeAll(short)|)
  }

  /** The length counts the whole block, itself included. */
  function CreateOob(o: Oob): seq<byte> {
    var optional := EncodeAll(OobFields(o));
    Le16(OOB_MIN + |optional|) + o.addr + optional
  }
}

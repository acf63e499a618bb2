/** Decoding of SPL Token and Token-2022 mint accounts. The digest of an extension body is the
    body itself (an injective digest). */
module MintAccount {
  import opened Wrappers
  import opened Base58

  datatype Extension = Extension(typeId: nat, body: seq<Byte>)

  datatype MintError =
    | OwnerMissing
    | DataNotPair
    | InvalidBase64
    | UnsupportedProgram
    | ShorterThanMint
    | InvalidOptionTag
    | HeaderTruncated
    | NotMintAccount
    | ExtensionHeaderTruncated
    | ExtensionBodyTruncated

  datatype Program = SplToken | Token2022 | OtherProgram

  /** The data field of an account object as returned by the node. */
  datatype Payload = NotPair | NotBase64 | Raw(bytes: seq<Byte>)

  datatype Account = Account(owner: Option<Program>, data: Payload)

  datatype Mint = Mint(
    program: Program,
    mintAuthority: Option<string>,
    freezeAuthority: Option<string>,
    rawSupply: nat,
    decimals: Byte,
    isInitialized: bool,
    extensions: seq<Extension>)

  datatype Decoded =
    | Unavailable
    | Malformed(error: MintError)
    | Available(mint: Mint)

  // ---------------------------------------------------------------- little-endian numbers

  function FromLittle(bytes: seq<Byte>): nat {
    if bytes == [] then 0 else bytes[0] + 256 * FromLittle(bytes[1..])
  }

  function ToLittle(n: nat, width: nat): (bytes: seq<Byte>)
    ensures |bytes| == width
  {
    if width == 0 then [] else [n % 256] + ToLittle(n / 256, width - 1)
  }

  function Power256(k: nat): nat {
    if k == 0 then 1 else 256 * Power256(k - 1)
  }

  lemma {:induction false} FromToLittle(n: nat, width: nat)
    requires n < Power256(width)
    ensures FromLittle(ToLittle(n, width)) == n
  {
    if 0 < width {
      FromToLittle(n / 256, width - 1);
      assert ToLittle(n, width)[1..] == ToLittle(n / 256, width - 1);
    }
  }

  lemma {:induction false} LittleIsSmall(bytes: seq<Byte>)
    ensures FromLittle(bytes) < Power256(|bytes|)
  {
    if bytes != [] {
      LittleIsSmall(bytes[1..]);
    }
  }

  lemma LowByte(low: Byte, high: nat)
    ensures (low + 256 * high) % 256 == low && (low + 256 * high) / 256 == high
  {
  }

  lemma {:induction false} ToFromLittle(bytes: seq<Byte>)
    ensures FromLittle(bytes) < Power256(|bytes|)
    ensures ToLittle(FromLittle(bytes), |bytes|) == bytes
  {
    LittleIsSmall(bytes);
    if bytes != [] {
      ToFromLittle(bytes[1..]);
      LowByte(bytes[0], FromLittle(bytes[1..]));
      assert bytes == [bytes[0]] + bytes[1..];
    }
  }

  // ---------------------------------------------------------------- the extension records

  predicate AllZero(bytes: seq<Byte>) {
    forall i :: 0 <= i < |bytes| ==> bytes[i] == 0
  }

  function ZeroBytes(k: nat): (z: seq<Byte>)
    ensures |z| == k && AllZero(z)
  {
    seq(k, _ => 0)
  }

  predicate Representable(e: Extension) {
    e.typeId < 0x1_0000 && |e.body| < 0x1_0000
  }

  function LayoutOne(e: Extension): seq<Byte> {
    ToLittle(e.typeId, 2) + ToLittle(|e.body|, 2) + e.body
  }

  function LayoutAll(extensions: seq<Extension>): seq<Byte> {
    if extensions == [] then [] else LayoutOne(extensions[0]) + LayoutAll(extensions[1..])
  }

  /** The type-length-value walk over the bytes after the account type. */
  function Walk(bytes: seq<Byte>): Result<seq<Extension>, MintError> {
    if AllZero(bytes) then Success([])
    else if |bytes| < 4 then Failure(ExtensionHeaderTruncated)
    else
      var length := FromLittle(bytes[2..4]);
      if |bytes| < 4 + length then Failure(ExtensionBodyTruncated)
      else
        Prepend([Extension(FromLittle(bytes[..2]), bytes[4..4 + length])], Walk(bytes[4 + length..]))
  }

  function Prepend(done: seq<Extension>, r: Result<seq<Extension>, MintError>): Result<seq<Extension>, MintError> {
    match r
    case Success(rest) => Success(done + rest)
    case Failure(e) => Failure(e)
  }

  lemma PrependAgain(done: seq<Extension>, e: Extension, r: Result<seq<Extension>, MintError>)
    ensures Prepend([], r) == r
    ensures Prepend(done, Prepend([e], r)) == Prepend(done + [e], r)
    ensures Prepend(done, Success([])) == Success(done)
  {
    assert done + [] == done;
    if r.Success? {
      assert [] + r.value == r.value;
      assert done + ([e] + r.value) == done + [e] + r.value;
    }
  }

  lemma TwoBytes(b: seq<Byte>)
    requires |b| == 2
    ensures FromLittle(b) == (b[0] as int) + 256 * (b[1] as int) < 0x1_0000
  {
    assert FromLittle(b[1..]) == (b[1] as int) + 256 * FromLittle(b[2..]);
  }

  /** The bytes of one extension read back. */
  lemma LayoutOneReads(e: Extension, rest: seq<Byte>)
    requires Representable(e)
    ensures var bytes := LayoutOne(e) + rest;
      && 4 + |e.body| <= |bytes|
      && FromLittle(bytes[..2]) == e.typeId
      && FromLittle(bytes[2..4]) == |e.body|
      && bytes[4..4 + |e.body|] == e.body
      && bytes[4 + |e.body|..] == rest
  {
    var bytes := LayoutOne(e) + rest;
    assert Power256(2) == 0x1_0000;
    FromToLittle(e.typeId, 2);
    FromToLittle(|e.body|, 2);
    assert bytes[..2] == ToLittle(e.typeId, 2);
    assert bytes[2..4] == ToLittle(|e.body|, 2);
  }

  lemma SmallLittleIsZero(n: nat)
    requires n < 0x1_0000 && AllZero(ToLittle(n, 2))
    ensures n == 0
  {
    assert Power256(2) == 0x1_0000;
    FromToLittle(n, 2);
    TwoBytes(ToLittle(n, 2));
  }

  /** Only the empty extension of type 0 is laid out as zero bytes. */
  lemma LayoutOneZero(e: Extension)
    requires Representable(e)
    ensures AllZero(LayoutOne(e)) <==> e == Extension(0, [])
  {
    var bytes := LayoutOne(e);
    if AllZero(bytes) {
      forall i | 0 <= i < 2
        ensures ToLittle(e.typeId, 2)[i] == 0 && ToLittle(|e.body|, 2)[i] == 0
      {
        assert bytes[i] == ToLittle(e.typeId, 2)[i];
        assert bytes[2 + i] == ToLittle(|e.body|, 2)[i];
      }
      SmallLittleIsZero(e.typeId);
      SmallLittleIsZero(|e.body|);
    }
    if e == Extension(0, []) {
      assert ToLittle(0, 2) == [0, 0];
      assert bytes == [0, 0, 0, 0];
    }
  }

  /** A record list whose last record is not all zero bytes. */
  predicate EndsVisibly(extensions: seq<Extension>) {
    extensions == [] || extensions[|extensions| - 1] != Extension(0, [])
  }

  lemma VisiblePart(a: seq<Byte>, b: seq<Byte>)
    ensures AllZero(a + b) <==> AllZero(a) && AllZero(b)
  {
    if AllZero(a + b) {
      assert forall i :: 0 <= i < |a| ==> a[i] == (a + b)[i];
      assert forall i :: 0 <= i < |b| ==> b[i] == (a + b)[|a| + i];
    }
  }

  lemma {:induction false} LayoutVisible(extensions: seq<Extension>, padding: nat)
    requires forall i :: 0 <= i < |extensions| ==> Representable(extensions[i])
    requires extensions != [] && EndsVisibly(extensions)
    ensures !AllZero(LayoutAll(extensions) + ZeroBytes(padding))
  {
    VisiblePart(LayoutAll(extensions), ZeroBytes(padding));
    VisiblePart(LayoutOne(extensions[0]), LayoutAll(extensions[1..]));
    if |extensions| == 1 {
      LayoutOneZero(extensions[0]);
    } else {
      LayoutVisible(extensions[1..], padding);
      VisiblePart(LayoutAll(extensions[1..]), ZeroBytes(padding));
    }
  }

  /** Any list that ends visibly, under any zero padding, reads back exactly. */
  lemma {:induction false} WalkLayout(extensions: seq<Extension>, padding: nat)
    requires forall i :: 0 <= i < |extensions| ==> Representable(extensions[i])
    requires EndsVisibly(extensions)
    ensures Walk(LayoutAll(extensions) + ZeroBytes(padding)) == Success(extensions)
  {
    var bytes := LayoutAll(extensions) + ZeroBytes(padding);
    if extensions == [] {
      assert bytes == ZeroBytes(padding);
    } else {
      var rest := LayoutAll(extensions[1..]) + ZeroBytes(padding);
      LayoutVisible(extensions, padding);
      assert bytes == LayoutOne(extensions[0]) + rest;
      LayoutOneReads(extensions[0], rest);
      WalkLayout(extensions[1..], padding);
      assert extensions == [extensions[0]] + extensions[1..];
    }
  }

  /** The records are representable, end visibly, and with zero padding tile the bytes. */
  predicate Tiles(extensions: seq<Extension>, bytes: seq<Byte>) {
    && (forall i :: 0 <= i < |extensions| ==> Representable(extensions[i]))
    && EndsVisibly(extensions)
    && |LayoutAll(extensions)| <= |bytes|
    && bytes == LayoutAll(extensions) + ZeroBytes(|bytes| - |LayoutAll(extensions)|)
  }

  /** The first record of the bytes. */
  lemma FirstRecord(bytes: seq<Byte>)
    requires 4 <= |bytes| && 4 + FromLittle(bytes[2..4]) <= |bytes|
    ensures var e := Extension(FromLittle(bytes[..2]), bytes[4..4 + FromLittle(bytes[2..4])]);
      Representable(e) && bytes == LayoutOne(e) + bytes[4 + FromLittle(bytes[2..4])..]
  {
    TwoBytes(bytes[..2]);
    TwoBytes(bytes[2..4]);
    ToFromLittle(bytes[..2]);
    ToFromLittle(bytes[2..4]);
  }

  lemma TilesPrepend(e: Extension, rest: seq<Byte>, extensions: seq<Extension>)
    requires Representable(e) && Tiles(extensions, rest) && !AllZero(LayoutOne(e) + rest)
    ensures Tiles([e] + extensions, LayoutOne(e) + rest)
  {
    var all := [e] + extensions;
    assert all[1..] == extensions;
    assert LayoutAll(all) == LayoutOne(e) + LayoutAll(extensions);
    if extensions == [] {
      assert LayoutAll(extensions) == [];
      LastRecordVisible(e, rest);
    } else {
      assert all[|all| - 1] == extensions[|extensions| - 1];
    }
  }

  /** On every accepted input the records and zero padding tile the bytes exactly. */
  lemma {:induction false} WalkTiles(bytes: seq<Byte>)
    requires Walk(bytes).Success?
    ensures Tiles(Walk(bytes).value, bytes)
    decreases |bytes|
  {
    if AllZero(bytes) {
      assert bytes == ZeroBytes(|bytes|);
    } else {
      var length := FromLittle(bytes[2..4]);
      var rest := bytes[4 + length..];
      WalkTiles(rest);
      FirstRecord(bytes);
      TilesPrepend(Extension(FromLittle(bytes[..2]), bytes[4..4 + length]), rest, Walk(rest).value);
    }
  }

  lemma LastRecordVisible(e: Extension, rest: seq<Byte>)
    requires Representable(e) && AllZero(rest) && !AllZero(LayoutOne(e) + rest)
    ensures e != Extension(0, [])
  {
    LayoutOneZero(e);
  }

  /** A laid-out list is read back if and only if its last record is not the empty type 0 one,
      which cannot be told from padding. */
  lemma WalkRoundTripExactly(extensions: seq<Extension>, padding: nat)
    requires forall i :: 0 <= i < |extensions| ==> Representable(extensions[i])
    ensures Walk(LayoutAll(extensions) + ZeroBytes(padding)) == Success(extensions) <==> EndsVisibly(extensions)
  {
    if EndsVisibly(extensions) {
      WalkLayout(extensions, padding);
    } else if Walk(LayoutAll(extensions) + ZeroBytes(padding)) == Success(extensions) {
      WalkTiles(LayoutAll(extensions) + ZeroBytes(padding));
    }
  }

  // ---------------------------------------------------------------- the loop

  function Extensions(raw: seq<Byte>): Result<seq<Extension>, MintError> {
    if |raw| == 82 then Success([])
    else if |raw| < 166 then Failure(HeaderTruncated)
    else if raw[165] != 1 then Failure(NotMintAccount)
    else Walk(raw[166..])
  }

  /** The record at an offset into the whole account, as the walk reads it. */
  lemma WalkRecord(raw: seq<Byte>, offset: nat, e: Extension)
    requires offset + 4 + |e.body| <= |raw| && !AllZero(raw[offset..])
    requires e.typeId == FromLittle(raw[offset..offset + 2]) && |e.body| == FromLittle(raw[offset + 2..offset + 4])
    requires e.body == raw[offset + 4..offset + 4 + |e.body|]
    ensures Walk(raw[offset..]) == Prepend([e], Walk(raw[offset + 4 + |e.body|..]))
  {
    var here := raw[offset..];
    assert here[..2] == raw[offset..offset + 2] && here[2..4] == raw[offset + 2..offset + 4];
    assert here[4..4 + |e.body|] == e.body && here[4 + |e.body|..] == raw[offset + 4 + |e.body|..];
  }

  lemma WalkTruncated(raw: seq<Byte>, offset: nat)
    requires offset <= |raw| && !AllZero(raw[offset..])
    ensures |raw| < offset + 4 ==> Walk(raw[offset..]) == Failure(ExtensionHeaderTruncated)
    ensures offset + 4 <= |raw| < offset + 4 + FromLittle(raw[offset + 2..offset + 4]) ==>
      Walk(raw[offset..]) == Failure(ExtensionBodyTruncated)
  {
    var here := raw[offset..];
    if offset + 4 <= |raw| {
      assert here[2..4] == raw[offset + 2..offset + 4];
    }
  }

  /** One turn of the loop: the record at the offset, or the truncation it runs into. */
  method ReadExtension(raw: seq<Byte>, start: nat) returns (record: Result<Extension, MintError>)
    requires start <= |raw| && !AllZero(raw[start..])
    ensures record.Failure? ==> Walk(raw[start..]) == Failure(record.error)
    ensures record.Success? ==>
      var next := start + 4 + |record.value.body|;
      next <= |raw| && Walk(raw[start..]) == Prepend([record.value], Walk(raw[next..]))
  {
    WalkTruncated(raw, start);
    var offset := start;
    if offset + 4 > |raw| {
      return Failure(ExtensionHeaderTruncated);
    }
    var extensionType := FromLittle(raw[offset..offset + 2]);
    var length := FromLittle(raw[offset + 2..offset + 4]);
    offset := offset + 4;
    if offset + length > |raw| {
      return Failure(ExtensionBodyTruncated);
    }
    var extension := Extension(extensionType, raw[offset..offset + length]);
    WalkRecord(raw, start, extension);
    return Success(extension);
  }

  method Token2022Extensions(raw: seq<Byte>) returns (result: Result<seq<Extension>, MintError>)
    ensures result == Extensions(raw)
  {
    if |raw| == 82 {
      return Success([]);
    }
    if |raw| < 166 {
      return Failure(HeaderTruncated);
    }
    if raw[165] != 1 {
      return Failure(NotMintAccount);
    }
    var offset := 166;
    var types: seq<Extension> := [];
    PrependAgain([], Extension(0, []), Walk(raw[166..]));
    while offset < |raw|
      invariant 166 <= offset <= |raw|
      invariant Walk(raw[166..]) == Prepend(types, Walk(raw[offset..]))
    {
      if AllZero(raw[offset..]) {
        break;
      }
      var record := ReadExtension(raw, offset);
      if record.Failure? {
        return Failure(record.error);
      }
      offset := offset + 4 + |record.value.body|;
      PrependAgain(types, record.value, Walk(raw[offset..]));
      types := types + [record.value];
    }
    PrependAgain(types, Extension(0, []), Success([]));
    return Success(types);
  }

  // ---------------------------------------------------------------- the base state

  /** An optional public key as laid out: absent ones keep 32 bytes of filler. */
  datatype Authority = Absent(filler: seq<Byte>) | Present(key: seq<Byte>) {
    predicate Ok() { (if Absent? then |filler| else |key|) == 32 }

    function Layout(): seq<Byte> {
      match this
      case Absent(filler) => ToLittle(0, 4) + filler
      case Present(key) => ToLittle(1, 4) + key
    }

    function Text(): Option<string> {
      match this
      case Absent(_) => None
      case Present(key) => Some(Encode(key))
    }
  }

  datatype Fields = Fields(mintAuthority: Authority, supply: nat, decimals: Byte, initialized: Byte,
                           freezeAuthority: Authority)
  {
    predicate Ok() {
      mintAuthority.Ok() && freezeAuthority.Ok() && supply < Power256(8)
    }

    /** The 82 bytes of the base state. */
    function Layout(): (bytes: seq<Byte>)
      requires Ok()
      ensures |bytes| == 82
    {
      mintAuthority.Layout() + ToLittle(supply, 8) + [decimals, initialized] + freezeAuthority.Layout()
    }

    function Decoded(program: Program, extensions: seq<Extension>): Mint {
      Mint(program, mintAuthority.Text(), freezeAuthority.Text(), supply, decimals, initialized != 0, extensions)
    }
  }

  function OptionPubkey(value: seq<Byte>): Result<Option<string>, MintError>
    requires |value| == 36
  {
    var tag := FromLittle(value[..4]);
    if tag == 0 then Success(None)
    else if tag != 1 then Failure(InvalidOptionTag)
    else Success(Some(Encode(value[4..36])))
  }

  function DecodeBytes(program: Program, raw: seq<Byte>): Decoded {
    if program == OtherProgram then Malformed(UnsupportedProgram)
    else if |raw| < 82 then Malformed(ShorterThanMint)
    else
      match OptionPubkey(raw[0..36])
      case Failure(e) => Malformed(e)
      case Success(mintAuthority) =>
        match OptionPubkey(raw[46..82])
        case Failure(e) => Malformed(e)
        case Success(freezeAuthority) =>
          match if program == Token2022 then Extensions(raw) else Success([])
          case Failure(e) => Malformed(e)
          case Success(extensions) =>
            Available(Mint(program, mintAuthority, freezeAuthority, FromLittle(raw[36..44]), raw[44],
                           raw[45] != 0, extensions))
  }

  function DecodeMintAccount(account: Option<Account>): Decoded {
    match account
    case None => Unavailable
    case Some(Account(None, _)) => Malformed(OwnerMissing)
    case Some(Account(Some(_), NotPair)) => Malformed(DataNotPair)
    case Some(Account(Some(_), NotBase64)) => Malformed(InvalidBase64)
    case Some(Account(Some(program), Raw(raw))) => DecodeBytes(program, raw)
  }

  /** The account object that the node returns for these bytes. */
  function OnChain(program: Program, raw: seq<Byte>): Option<Account> {
    Some(Account(Some(program), Raw(raw)))
  }

  lemma AuthorityReads(a: Authority)
    requires a.Ok()
    ensures |a.Layout()| == 36 && OptionPubkey(a.Layout()) == Success(a.Text())
  {
    assert Power256(4) == 0x1_0000_0000;
    FromToLittle(0, 4);
    FromToLittle(1, 4);
    var tag := if a.Absent? then 0 else 1;
    assert a.Layout()[..4] == ToLittle(tag, 4);
    assert a.Present? ==> a.Layout()[4..36] == a.key;
  }

  /** The base fields read back, whatever follows them. */
  lemma FieldsRead(f: Fields, rest: seq<Byte>)
    requires f.Ok()
    ensures var raw := f.Layout() + rest;
      && OptionPubkey(raw[0..36]) == Success(f.mintAuthority.Text())
      && OptionPubkey(raw[46..82]) == Success(f.freezeAuthority.Text())
      && FromLittle(raw[36..44]) == f.supply
      && raw[44] == f.decimals && raw[45] == f.initialized
  {
    var raw := f.Layout() + rest;
    AuthorityReads(f.mintAuthority);
    AuthorityReads(f.freezeAuthority);
    FromToLittle(f.supply, 8);
    Slices(f.mintAuthority.Layout(), ToLittle(f.supply, 8), [f.decimals, f.initialized], f.freezeAuthority.Layout(),
        rest);
  }

  lemma Slices(a: seq<Byte>, b: seq<Byte>, c: seq<Byte>, d: seq<Byte>, rest: seq<Byte>)
    requires |a| == 36 && |b| == 8 && |c| == 2 && |d| == 36
    ensures var raw := a + b + c + d + rest;
      raw[0..36] == a && raw[36..44] == b && raw[44] == c[0] && raw[45] == c[1] && raw[46..82] == d
  {
  }

  lemma ExtensionsAfterHeader(header: seq<Byte>, records: seq<Byte>)
    requires |header| == 166 && header[165] == 1
    ensures Extensions(header + records) == Walk(records)
  {
    assert (header + records)[166..] == records;
  }

  /** The bytes of a Token-2022 mint: base state, filler up to the account type, records. */
  function Token2022Layout(f: Fields, gap: seq<Byte>, records: seq<Byte>): seq<Byte>
    requires f.Ok() && |gap| == 83
  {
    f.Layout() + gap + [1] + records
  }

  lemma LayoutRegroups(base: seq<Byte>, gap: seq<Byte>, records: seq<Byte>)
    ensures base + gap + [1] + records == base + (gap + [1] + records)
  {
  }

  lemma Token2022Reads(f: Fields, gap: seq<Byte>, records: seq<Byte>)
    requires f.Ok() && |gap| == 83 && Walk(records).Success?
    ensures DecodeBytes(Token2022, Token2022Layout(f, gap, records))
         == Available(f.Decoded(Token2022, Walk(records).value))
  {
    ExtensionsAfterHeader(f.Layout() + gap + [1], records);
    LayoutRegroups(f.Layout(), gap, records);
    FieldsRead(f, gap + [1] + records);
  }

  /** An account object decodes as its bytes do. */
  lemma OnChainDecodes(program: Program, raw: seq<Byte>, decoded: Decoded)
    requires DecodeBytes(program, raw) == decoded
    ensures DecodeMintAccount(OnChain(program, raw)) == decoded
  {
  }

  /** A Token-2022 mint with any extensions that end visibly, any filler before the account type
      and any zero padding, decodes to its own fields and extensions. */
  lemma Token2022RoundTrip(f: Fields, gap: seq<Byte>, extensions: seq<Extension>, padding: nat)
    requires f.Ok() && |gap| == 83
    requires forall i :: 0 <= i < |extensions| ==> Representable(extensions[i])
    requires EndsVisibly(extensions)
    ensures DecodeMintAccount(OnChain(Token2022, Token2022Layout(f, gap, LayoutAll(extensions) + ZeroBytes(padding))))
         == Available(f.Decoded(Token2022, extensions))
  {
    var records := LayoutAll(extensions) + ZeroBytes(padding);
    WalkLayout(extensions, padding);
    Token2022Reads(f, gap, records);
    OnChainDecodes(Token2022, Token2022Layout(f, gap, records), Available(f.Decoded(Token2022, extensions)));
  }

  /** A classic mint, or a Token-2022 mint of exactly the base size, has no extensions. */
  lemma BaseRoundTrip(f: Fields, rest: seq<Byte>)
    requires f.Ok()
    ensures DecodeMintAccount(OnChain(SplToken, f.Layout() + rest)) == Available(f.Decoded(SplToken, []))
    ensures DecodeMintAccount(OnChain(Token2022, f.Layout())) == Available(f.Decoded(Token2022, []))
  {
    ClassicReads(f, rest);
    OnChainDecodes(SplToken, f.Layout() + rest, Available(f.Decoded(SplToken, [])));
    BaseSizeReads(f);
    OnChainDecodes(Token2022, f.Layout(), Available(f.Decoded(Token2022, [])));
  }

  lemma ClassicReads(f: Fields, rest: seq<Byte>)
    requires f.Ok()
    ensures DecodeBytes(SplToken, f.Layout() + rest) == Available(f.Decoded(SplToken, []))
  {
    FieldsRead(f, rest);
  }

  lemma BaseSizeReads(f: Fields)
    requires f.Ok()
    ensures DecodeBytes(Token2022, f.Layout()) == Available(f.Decoded(Token2022, []))
  {
    FieldsRead(f, []);
    assert f.Layout() + [] == f.Layout();
  }

  /** The authority that an accepted 36-byte field lays out. */
  function AuthorityOf(value: seq<Byte>): Authority
    requires |value| == 36
  {
    if FromLittle(value[..4]) == 0 then Absent(value[4..]) else Present(value[4..])
  }

  lemma AuthorityTiles(value: seq<Byte>)
    requires |value| == 36 && OptionPubkey(value).Success?
    ensures AuthorityOf(value).Ok() && AuthorityOf(value).Layout() == value
    ensures OptionPubkey(value) == Success(AuthorityOf(value).Text())
  {
    ToFromLittle(value[..4]);
    assert value[4..] == value[4..36];
  }

  /** Every accepted account object is that of a supported program whose bytes are the layout of the
      fields and extensions it decodes to. */
  lemma AcceptedIsLaidOut(account: Option<Account>) returns (raw: seq<Byte>, f: Fields)
    requires DecodeMintAccount(account).Available?
    ensures var mint := DecodeMintAccount(account).mint;
      && mint.program != OtherProgram && account == OnChain(mint.program, raw)
      && f.Ok() && 82 <= |raw| && f.Layout() == raw[..82]
      && mint == f.Decoded(mint.program, mint.extensions)
      && (if mint.program == Token2022 && 82 < |raw|
          then 166 <= |raw| && raw[165] == 1 && Tiles(mint.extensions, raw[166..])
          else mint.extensions == [])
  {
    raw := account.value.data.bytes;
    f := FieldsOf(raw);
    BaseTiles(raw);
    AcceptedFields(account.value.owner.value, raw);
    if account.value.owner == Some(Token2022) && 82 < |raw| {
      AcceptedExtensions(raw);
    }
  }

  lemma AcceptedFields(program: Program, raw: seq<Byte>)
    requires DecodeBytes(program, raw).Available? && BaseAccepted(raw)
    ensures DecodeBytes(program, raw)
         == Available(FieldsOf(raw).Decoded(program, DecodeBytes(program, raw).mint.extensions))
  {
    AuthorityTiles(raw[0..36]);
    AuthorityTiles(raw[46..82]);
  }

  lemma AcceptedExtensions(raw: seq<Byte>)
    requires DecodeBytes(Token2022, raw).Available? && 82 < |raw|
    ensures 166 <= |raw| && raw[165] == 1 && Tiles(DecodeBytes(Token2022, raw).mint.extensions, raw[166..])
  {
    WalkTiles(raw[166..]);
  }

  predicate BaseAccepted(raw: seq<Byte>) {
    82 <= |raw| && OptionPubkey(raw[0..36]).Success? && OptionPubkey(raw[46..82]).Success?
  }

  /** The fields that an accepted base state lays out. */
  function FieldsOf(raw: seq<Byte>): Fields
    requires BaseAccepted(raw)
  {
    Fields(AuthorityOf(raw[0..36]), FromLittle(raw[36..44]), raw[44], raw[45], AuthorityOf(raw[46..82]))
  }

  lemma BaseTiles(raw: seq<Byte>)
    requires BaseAccepted(raw)
    ensures FieldsOf(raw).Ok() && FieldsOf(raw).Layout() == raw[..82]
  {
    AuthorityTiles(raw[0..36]);
    AuthorityTiles(raw[46..82]);
    ToFromLittle(raw[36..44]);
    BaseRegroups(raw);
  }

  lemma BaseRegroups(raw: seq<Byte>)
    requires 82 <= |raw|
    ensures raw[0..36] + raw[36..44] + [raw[44], raw[45]] + raw[46..82] == raw[..82]
  {
  }

  /** Equal decoded authorities come from equal public keys. */
  lemma AuthorityTextIsFaithful(a: Authority, b: Authority)
    requires a.Text() == b.Text()
    ensures a.Present? <==> b.Present?
    ensures a.Present? ==> a.key == b.key
  {
    if a.Present? {
      EncodeIsInjective(a.key, b.key);
    }
  }
}

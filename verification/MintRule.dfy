/** Where the decoder finds each field of a mint account, and which accounts it accepts, by byte offset. */
module MintRule {
  import opened Wrappers
  import opened Base58
  import opened MintAccount

  // ---------------------------------------------------------------- the base state

  /** Numbers of two and four bytes, the lowest byte first. */
  function Two(a: nat, b: nat): nat { a + 0x100 * b }

  function Four(a: nat, b: nat, c: nat, d: nat): nat { a + 0x100 * b + 0x1_0000 * c + 0x100_0000 * d }

  lemma FourBytes(b: seq<Byte>)
    requires |b| == 4
    ensures FromLittle(b) == Four(b[0], b[1], b[2], b[3])
  {
    TwoBytes(b[2..]);
    LowestFirst(b);
    LowestFirst(b[1..]);
  }

  lemma LowestFirst(b: seq<Byte>)
    requires b != []
    ensures FromLittle(b) == Two(b[0], FromLittle(b[1..]))
    ensures 1 < |b| ==> b[1..][0] == b[1] && b[1..][1..] == b[2..]
  {
  }

  /** Eight bytes are a low and a high half. */
  lemma EightBytes(b: seq<Byte>)
    requires |b| == 8
    ensures FromLittle(b) == Four(b[0], b[1], b[2], b[3]) + 0x1_0000_0000 * Four(b[4], b[5], b[6], b[7])
  {
    FourBytes(b[4..]);
    LowestFirst(b);
    LowestFirst(b[1..]);
    LowestFirst(b[2..]);
    LowestFirst(b[3..]);
    assert b[1..][1..] == b[2..] && b[2..][1..] == b[3..] && b[3..][1..] == b[4..];
  }

  /** The supply of an account by its eight bytes. */
  function SupplyAt(raw: seq<Byte>): nat
    requires 44 <= |raw|
  {
    Four(raw[36], raw[37], raw[38], raw[39]) + 0x1_0000_0000 * Four(raw[40], raw[41], raw[42], raw[43])
  }

  lemma SupplyRead(raw: seq<Byte>)
    requires 44 <= |raw|
    ensures FromLittle(raw[36..44]) == SupplyAt(raw)
  {
    EightBytes(raw[36..44]);
  }

  /** The four bytes at an offset are the number n < 256, the lowest byte first. */
  predicate TagAt(raw: seq<Byte>, at: nat, n: Byte) {
    at + 4 <= |raw| && raw[at] == n && raw[at + 1] == 0 && raw[at + 2] == 0 && raw[at + 3] == 0
  }

  /** No authority under tag 0, the text of the 32 bytes that follow tag 1. */
  predicate AuthorityAt(raw: seq<Byte>, at: nat, authority: Option<string>) {
    && at + 36 <= |raw|
    && match authority
       case None => TagAt(raw, at, 0)
       case Some(text) => TagAt(raw, at, 1) && text == Encode(raw[at + 4..at + 36])
  }

  lemma SmallNumber(a: Byte, b: Byte, c: Byte, d: Byte, n: Byte)
    ensures Four(a, b, c, d) == n <==> a == n && b == 0 && c == 0 && d == 0
  {
  }

  lemma TagRead(raw: seq<Byte>, at: nat, n: Byte)
    requires at + 4 <= |raw|
    ensures FromLittle(raw[at..at + 4]) == n <==> TagAt(raw, at, n)
  {
    FourBytes(raw[at..at + 4]);
    SmallNumber(raw[at], raw[at + 1], raw[at + 2], raw[at + 3], n);
  }

  lemma AuthorityRead(raw: seq<Byte>, at: nat)
    requires at + 36 <= |raw|
    ensures OptionPubkey(raw[at..at + 36]).Success? <==> TagAt(raw, at, 0) || TagAt(raw, at, 1)
    ensures OptionPubkey(raw[at..at + 36]).Success? ==> AuthorityAt(raw, at, OptionPubkey(raw[at..at + 36]).value)
    ensures OptionPubkey(raw[at..at + 36]).Failure? ==> OptionPubkey(raw[at..at + 36]).error == InvalidOptionTag
  {
    var value := raw[at..at + 36];
    assert value[..4] == raw[at..at + 4] && value[4..36] == raw[at + 4..at + 36];
    TagRead(raw, at, 0);
    TagRead(raw, at, 1);
  }

  predicate TagsOk(raw: seq<Byte>) {
    (TagAt(raw, 0, 0) || TagAt(raw, 0, 1)) && (TagAt(raw, 46, 0) || TagAt(raw, 46, 1))
  }

  lemma PlainFields(program: Program, raw: seq<Byte>)
    requires DecodeBytes(program, raw).Available?
    ensures var mint := DecodeBytes(program, raw).mint;
      && 82 <= |raw| && mint.program == program
      && mint.rawSupply == FromLittle(raw[36..44])
      && mint.decimals == raw[44] && (mint.isInitialized <==> raw[45] != 0)
      && OptionPubkey(raw[0..36]) == Success(mint.mintAuthority)
      && OptionPubkey(raw[46..82]) == Success(mint.freezeAuthority)
  {
  }

  /** The fields of an accepted mint by the offsets of their bytes. */
  lemma FieldsByOffset(program: Program, raw: seq<Byte>)
    requires DecodeBytes(program, raw).Available?
    ensures var mint := DecodeBytes(program, raw).mint;
      && 82 <= |raw| && mint.program == program
      && AuthorityAt(raw, 0, mint.mintAuthority)
      && mint.rawSupply == SupplyAt(raw)
      && mint.decimals == raw[44] && (mint.isInitialized <==> raw[45] != 0)
      && AuthorityAt(raw, 46, mint.freezeAuthority)
  {
    PlainFields(program, raw);
    AuthorityRead(raw, 0);
    AuthorityRead(raw, 46);
    SupplyRead(raw);
  }

  // ---------------------------------------------------------------- the extension records

  /** One record is its type, the length of its body and its body, the numbers lowest byte first. */
  lemma RecordBytes(e: Extension)
    requires Representable(e)
    ensures var bytes := LayoutOne(e);
      && |bytes| == 4 + |e.body|
      && Two(bytes[0], bytes[1]) == e.typeId
      && Two(bytes[2], bytes[3]) == |e.body|
      && bytes[4..] == e.body
  {
    var bytes := LayoutOne(e);
    assert bytes + [] == bytes;
    LayoutOneReads(e, []);
    TwoBytes(bytes[..2]);
    TwoBytes(bytes[2..4]);
  }

  /** The walk reads exactly the records that tile the bytes. */
  lemma WalkExactly(bytes: seq<Byte>, extensions: seq<Extension>)
    ensures Walk(bytes) == Success(extensions) <==> Tiles(extensions, bytes)
  {
    if Walk(bytes) == Success(extensions) {
      WalkTiles(bytes);
    }
    if Tiles(extensions, bytes) {
      WalkLayout(extensions, |bytes| - |LayoutAll(extensions)|);
    }
  }

  /** Records, then bytes that are not padding and too short for the header or the body they announce. */
  predicate Truncated(done: seq<Extension>, rest: seq<Byte>, bytes: seq<Byte>, error: MintError) {
    && (forall i :: 0 <= i < |done| ==> Representable(done[i]))
    && bytes == LayoutAll(done) + rest && !AllZero(rest)
    && if |rest| < 4 then error == ExtensionHeaderTruncated
       else error == ExtensionBodyTruncated && |rest| < 4 + Two(rest[2], rest[3])
  }

  /** A walk that fails has read whole records and met a truncated one. */
  lemma {:induction false} WalkFails(bytes: seq<Byte>) returns (done: seq<Extension>, rest: seq<Byte>)
    requires Walk(bytes).Failure?
    ensures Truncated(done, rest, bytes, Walk(bytes).error)
    decreases |bytes|
  {
    done, rest := [], bytes;
    assert LayoutAll([]) + bytes == bytes;
    if 4 <= |bytes| {
      TwoBytes(bytes[2..4]);
      var length := FromLittle(bytes[2..4]);
      if 4 + length <= |bytes| {
        FirstRecord(bytes);
        var e := Extension(FromLittle(bytes[..2]), bytes[4..4 + length]);
        done, rest := WalkFails(bytes[4 + length..]);
        RecordBefore(e, done, rest);
        done := [e] + done;
      }
    }
  }

  lemma RecordBefore(e: Extension, done: seq<Extension>, rest: seq<Byte>)
    ensures LayoutAll([e] + done) + rest == LayoutOne(e) + (LayoutAll(done) + rest)
  {
    assert ([e] + done)[1..] == done;
  }

  // ---------------------------------------------------------------- acceptance

  /** The extension part that the program requires. */
  predicate ExtensionsOk(program: Program, raw: seq<Byte>, extensions: seq<Extension>) {
    if program == Token2022 && |raw| != 82
    then 166 <= |raw| && raw[165] == 1 && Tiles(extensions, raw[166..])
    else extensions == []
  }

  lemma ExtensionsRead(program: Program, raw: seq<Byte>)
    requires DecodeBytes(program, raw).Available?
    ensures ExtensionsOk(program, raw, DecodeBytes(program, raw).mint.extensions)
  {
    if program == Token2022 && |raw| != 82 {
      WalkTiles(raw[166..]);
    }
  }

  /** Exactly the accounts of a supported program with both tags valid and, for an extended Token-2022
      account, the account type of a mint and records that tile the rest. */
  lemma AcceptedExactly(program: Program, raw: seq<Byte>)
    ensures DecodeBytes(program, raw).Available? <==>
            && program != OtherProgram && 82 <= |raw| && TagsOk(raw)
            && exists extensions :: ExtensionsOk(program, raw, extensions)
  {
    if 82 <= |raw| {
      AuthorityRead(raw, 0);
      AuthorityRead(raw, 46);
      assert program != Token2022 || |raw| == 82 ==> ExtensionsOk(program, raw, []);
    }
    if DecodeBytes(program, raw).Available? {
      ExtensionsRead(program, raw);
    }
    if extensions :| ExtensionsOk(program, raw, extensions) {
      if program == Token2022 && |raw| != 82 {
        WalkExactly(raw[166..], extensions);
      }
    }
  }

  /** The error of a refused account is that of the first check it fails. */
  lemma RefusedByFirstCheck(account: Option<Account>)
    ensures account == None <==> DecodeMintAccount(account) == Unavailable
    ensures account.Some? ==>
      var decoded := DecodeMintAccount(account);
      match account.value
      case Account(None, _) => decoded == Malformed(OwnerMissing)
      case Account(Some(_), NotPair) => decoded == Malformed(DataNotPair)
      case Account(Some(_), NotBase64) => decoded == Malformed(InvalidBase64)
      case Account(Some(program), Raw(raw)) =>
        if program == OtherProgram then decoded == Malformed(UnsupportedProgram)
        else if |raw| < 82 then decoded == Malformed(ShorterThanMint)
        else if !TagsOk(raw) then decoded == Malformed(InvalidOptionTag)
        else if program == SplToken || |raw| == 82 then decoded.Available?
        else if |raw| < 166 then decoded == Malformed(HeaderTruncated)
        else if raw[165] != 1 then decoded == Malformed(NotMintAccount)
        else Walk(raw[166..]).Failure? ==> decoded == Malformed(Walk(raw[166..]).error)
  {
    if account.Some? && account.value.owner.Some? && account.value.data.Raw? && 82 <= |account.value.data.bytes| {
      AuthorityRead(account.value.data.bytes, 0);
      AuthorityRead(account.value.data.bytes, 46);
    }
  }
}

/**
 Bridge accounting in a beacon block: how burn requests become confirm instructions
 (blockchain/beaconbridgeproducer.go) and how bridge instructions change the recorded token
 amounts (blockchain/beaconbridgeprocess.go).
 */
module Bridge {
  import opened Options

  type Byte = b: nat | b < 256
  type U64 = x: nat | x < 0x1_0000_0000_0000_0000

  /** Token identifiers and transaction hashes are only compared. */
  type Token = nat
  type TxID = nat

  // ---------------------------------------------------------------------------------------------
  // Big-endian bytes
  // ---------------------------------------------------------------------------------------------

  /** Bytes of big.Int: no leading zero, none at all for zero. */
  function ToBytes(x: nat): seq<Byte>
  {
    if x == 0 then [] else ToBytes(x / 256) + [x % 256]
  }

  function FromBytes(bytes: seq<Byte>): nat
  {
    if bytes == [] then 0 else FromBytes(bytes[..|bytes| - 1]) * 256 + bytes[|bytes| - 1]
  }

  lemma {:induction false} BytesRoundTrip(x: nat)
    ensures FromBytes(ToBytes(x)) == x
  {
    if x > 0 {
      BytesRoundTrip(x / 256);
      var init := ToBytes(x / 256);
      assert ToBytes(x)[..|init|] == init;
    }
  }

  function Power256(n: nat): nat
  {
    if n == 0 then 1 else 256 * Power256(n - 1)
  }

  /** The first byte is the most significant one. */
  lemma {:induction false} FirstByteIsHighest(first: Byte, rest: seq<Byte>)
    ensures FromBytes([first] + rest) == first * Power256(|rest|) + FromBytes(rest)
    decreases |rest|
  {
    var all := [first] + rest;
    if rest != [] {
      var front, last := rest[..|rest| - 1], rest[|rest| - 1];
      assert all[..|all| - 1] == [first] + front;
      FirstByteIsHighest(first, front);
      assert first * Power256(|rest|) == (first * Power256(|front|)) * 256;
    } else {
      assert all[..0] == [];
    }
  }

  /** The encoding has no leading zero. */
  lemma {:induction false} NoLeadingZero(x: nat)
    ensures x == 0 <==> ToBytes(x) == []
    ensures x > 0 ==> ToBytes(x)[0] != 0
  {
    if x > 0 { NoLeadingZero(x / 256); }
  }

  /** Uint64 of big.Int keeps the low 64 bits. */
  function Low64(x: nat): U64
  {
    x % 0x1_0000_0000_0000_0000
  }

  // ---------------------------------------------------------------------------------------------
  // Metadata types and network prefixes
  // ---------------------------------------------------------------------------------------------

  const NoPrefix: seq<Byte> := []
  const BSCPrefix: seq<Byte> := [66, 83, 67]
  const PLGPrefix: seq<Byte> := [80, 76, 71]
  const FTMPrefix: seq<Byte> := [70, 84, 77]
  const AURORAPrefix: seq<Byte> := [65, 85, 82]
  const AVAXPrefix: seq<Byte> := [65, 86, 88]
  const NEARPrefix: seq<Byte> := [78, 69, 82]

  const ExternalBridgeTokenLength: nat := 20
  const NativeToken: seq<Byte> := [0, 0, 0, 0, 0, 0, 0, 0, 0, 0, 0, 0, 0, 0, 0, 0, 0, 0, 0, 0]
  const WeiPerGwei: nat := 1_000_000_000

  const IssuingRequestMeta: nat := 24
  const ContractingRequestMeta: nat := 26

  const IssuingETHRequestMeta: nat := 80
  const IssuingBSCRequestMeta: nat := 250
  const IssuingPRVERC20RequestMeta: nat := 270
  const IssuingPRVBEP20RequestMeta: nat := 272
  const IssuingPLGRequestMeta: nat := 327
  const IssuingFantomRequestMeta: nat := 331
  const IssuingNearRequestMeta: nat := 335
  const IssuingAuroraRequestMeta: nat := 351
  const IssuingAvaxRequestMeta: nat := 354

  const BurningRequestMeta: nat := 27
  const BurningRequestMetaV2: nat := 240
  const BurningForDepositToSCRequestMeta: nat := 96
  const BurningForDepositToSCRequestMetaV2: nat := 242
  const BurningPBSCRequestMeta: nat := 252
  const BurningPBSCForDepositToSCRequestMeta: nat := 326
  const BurningPLGRequestMeta: nat := 329
  const BurningPLGForDepositToSCRequestMeta: nat := 330
  const BurningFantomRequestMeta: nat := 333
  const BurningFantomForDepositToSCRequestMeta: nat := 334
  const BurningAuroraRequestMeta: nat := 353
  const BurningAuroraForDepositToSCRequestMeta: nat := 357
  const BurningAvaxRequestMeta: nat := 356
  const BurningAvaxForDepositToSCRequestMeta: nat := 358
  const BurningNearRequestMeta: nat := 337
  const BurningPRVERC20RequestMeta: nat := 274
  const BurningPRVBEP20RequestMeta: nat := 275
  const BurningPRVRequestMeta: nat := 338

  const BurningConfirmMeta: nat := 72
  const BurningConfirmMetaV2: nat := 241
  const BurningConfirmForDepositToSCMeta: nat := 97
  const BurningConfirmForDepositToSCMetaV2: nat := 243
  const BurningBSCConfirmMeta: nat := 253
  const BurningPBSCConfirmForDepositToSCMeta: nat := 152
  const BurningPLGConfirmMeta: nat := 153
  const BurningPLGConfirmForDepositToSCMeta: nat := 154
  const BurningFantomConfirmMeta: nat := 155
  const BurningFantomConfirmForDepositToSCMeta: nat := 156
  const BurningAuroraConfirmMeta: nat := 159
  const BurningAuroraConfirmForDepositToSCMeta: nat := 161
  const BurningAvaxConfirmMeta: nat := 160
  const BurningAvaxConfirmForDepositToSCMeta: nat := 162
  const BurningNearConfirmMeta: nat := 163
  const BurningPRVERC20ConfirmMeta: nat := 150
  const BurningPRVBEP20ConfirmMeta: nat := 151
  const BurningPRVRequestConfirmMeta: nat := 164

  /** Producer: confirm type and prefix for a burn request type. */
  function Confirmation(request: nat): Option<(nat, seq<Byte>)>
  {
    if request == BurningRequestMeta then Some((BurningConfirmMeta, NoPrefix))
    else if request == BurningRequestMetaV2 then Some((BurningConfirmMetaV2, NoPrefix))
    else if request == BurningForDepositToSCRequestMeta then Some((BurningConfirmForDepositToSCMeta, NoPrefix))
    else if request == BurningForDepositToSCRequestMetaV2 then Some((BurningConfirmForDepositToSCMetaV2, NoPrefix))
    else if request == BurningPBSCRequestMeta then Some((BurningBSCConfirmMeta, BSCPrefix))
    else if request == BurningPBSCForDepositToSCRequestMeta then Some((BurningPBSCConfirmForDepositToSCMeta, BSCPrefix))
    else if request == BurningPLGRequestMeta then Some((BurningPLGConfirmMeta, PLGPrefix))
    else if request == BurningPLGForDepositToSCRequestMeta then Some((BurningPLGConfirmForDepositToSCMeta, PLGPrefix))
    else if request == BurningFantomRequestMeta then Some((BurningFantomConfirmMeta, FTMPrefix))
    else if request == BurningFantomForDepositToSCRequestMeta then
      Some((BurningFantomConfirmForDepositToSCMeta, FTMPrefix))
    else if request == BurningAuroraRequestMeta then Some((BurningAuroraConfirmMeta, AURORAPrefix))
    else if request == BurningAuroraForDepositToSCRequestMeta then
      Some((BurningAuroraConfirmForDepositToSCMeta, AURORAPrefix))
    else if request == BurningAvaxRequestMeta then Some((BurningAvaxConfirmMeta, AVAXPrefix))
    else if request == BurningAvaxForDepositToSCRequestMeta then
      Some((BurningAvaxConfirmForDepositToSCMeta, AVAXPrefix))
    else if request == BurningNearRequestMeta then Some((BurningNearConfirmMeta, NEARPrefix))
    else None
  }

  /** Processor: prefix for a confirm type. */
  function ConfirmPrefix(confirm: nat): Option<seq<Byte>>
  {
    if confirm in {BurningConfirmMeta, BurningConfirmForDepositToSCMeta, BurningConfirmMetaV2,
                   BurningConfirmForDepositToSCMetaV2} then Some(NoPrefix)
    else if confirm in {BurningBSCConfirmMeta, BurningPBSCConfirmForDepositToSCMeta} then Some(BSCPrefix)
    else if confirm in {BurningPLGConfirmMeta, BurningPLGConfirmForDepositToSCMeta} then Some(PLGPrefix)
    else if confirm in {BurningFantomConfirmMeta, BurningFantomConfirmForDepositToSCMeta} then Some(FTMPrefix)
    else if confirm in {BurningAuroraConfirmMeta, BurningAuroraConfirmForDepositToSCMeta} then Some(AURORAPrefix)
    else if confirm in {BurningAvaxConfirmMeta, BurningAvaxConfirmForDepositToSCMeta} then Some(AVAXPrefix)
    else if confirm == BurningNearConfirmMeta then Some(NEARPrefix)
    else None
  }

  /** Processor: whether a type issues tokens of a foreign chain, and if so whether it is PRV. */
  function IssuingBridge(meta: nat): Option<bool>
  {
    if meta in {IssuingETHRequestMeta, IssuingBSCRequestMeta, IssuingPLGRequestMeta, IssuingFantomRequestMeta,
                IssuingNearRequestMeta, IssuingAuroraRequestMeta, IssuingAvaxRequestMeta} then Some(false)
    else if meta in {IssuingPRVERC20RequestMeta, IssuingPRVBEP20RequestMeta} then Some(true)
    else None
  }

  /** A PRV burn is confirmed under a type the processor does not account for. */
  function PRVConfirmation(request: nat): Option<nat>
  {
    if request == BurningPRVERC20RequestMeta then Some(BurningPRVERC20ConfirmMeta)
    else if request == BurningPRVBEP20RequestMeta then Some(BurningPRVBEP20ConfirmMeta)
    else if request == BurningPRVRequestMeta then Some(BurningPRVRequestConfirmMeta)
    else None
  }

  // ---------------------------------------------------------------------------------------------
  // Requests, instructions, recorded tokens
  // ---------------------------------------------------------------------------------------------

  datatype Burn = Burn(token: Token, amount: U64, tx: TxID, remoteAddress: seq<Byte>)

  /** A shard instruction; a body that does not decode is None. */
  datatype Request = Request(meta: nat, body: Option<Burn>)

  /** Third and fourth part of a four-part instruction. */
  datatype Decision = Rejected | Malformed | Accepted(token: Token, external: seq<Byte>, amount: nat)

  /** A beacon instruction by its number of parts: under eight decided, or eight and more confirmed;
      anything the processor cannot read is `Odd`. */
  datatype Instruction =
    | Decided(meta: nat, decision: Decision)
    | Confirmed(meta: nat, external: seq<Byte>, remoteAddress: seq<Byte>, amount: seq<Byte>, tx: TxID, token: Token,
                height: seq<Byte>)
    | Odd(meta: nat)

  datatype TokenInfo = TokenInfo(external: seq<Byte>, amount: nat)

  /** The two lists of bridge tokens of the state. */
  datatype Tokens = Tokens(centralized: map<Token, TokenInfo>, decentralized: map<Token, TokenInfo>)

  function ListOf(tokens: Tokens, centralized: bool): map<Token, TokenInfo>
  {
    if centralized then tokens.centralized else tokens.decentralized
  }

  function AmountOf(tokens: Tokens, t: Token, centralized: bool): nat
  {
    if t in ListOf(tokens, centralized) then ListOf(tokens, centralized)[t].amount else 0
  }

  // ---------------------------------------------------------------------------------------------
  // Producer
  // ---------------------------------------------------------------------------------------------

  /** The first non-empty external identifier recorded for a token, centralized list first; it must
      carry the prefix of the network and the length of an address, except on NEAR. */
  function FindExternalTokenID(tokens: Tokens, t: Token, prefix: seq<Byte>): Option<seq<Byte>>
  {
    var found :=
      if t in tokens.centralized && tokens.centralized[t].external != [] then tokens.centralized[t].external
      else if t in tokens.decentralized then tokens.decentralized[t].external
      else [];
    if found == [] then None
    else if prefix != NEARPrefix && (|found| < ExternalBridgeTokenLength
            || |found| != ExternalBridgeTokenLength + |prefix| || found[..|prefix|] != prefix) then None
    else Some(found)
  }

  function BuildBurningConfirmInst(tokens: Tokens, confirm: nat, body: Option<Burn>, height: nat,
                                   prefix: seq<Byte>): Option<Instruction>
  {
    match body
    case None => None
    case Some(md) =>
      match FindExternalTokenID(tokens, md.token, prefix)
      case None => None
      case Some(external) =>
        var amount := if external == prefix + NativeToken then md.amount * WeiPerGwei else md.amount;
        Some(Confirmed(confirm, external, md.remoteAddress, ToBytes(amount), md.tx, md.token, ToBytes(height)))
  }

  /** The PRV token and the contracts its burns go to. */
  datatype PRVConfig = PRVConfig(token: Token, erc20: seq<Byte>, bep20: seq<Byte>)

  /** What the producer makes of one shard instruction. */
  function BuildOne(tokens: Tokens, request: Request, height: nat, prv: PRVConfig): Option<Instruction>
  {
    if request.meta == ContractingRequestMeta then
      Some(Decided(ContractingRequestMeta,
                   if request.body.None? then Malformed
                       else Accepted(request.body.value.token, [], request.body.value.amount)))
    else if Confirmation(request.meta).Some? then
      var (confirm, prefix) := Confirmation(request.meta).value;
      BuildBurningConfirmInst(tokens, confirm, request.body, height, prefix)
    else if PRVConfirmation(request.meta).Some? && request.body.Some? && request.body.value.token == prv.token then
      var md := request.body.value;
      var address := if request.meta == BurningPRVBEP20RequestMeta then prv.bep20 else prv.erc20;
      Some(Confirmed(PRVConfirmation(request.meta).value, address, md.remoteAddress, ToBytes(md.amount), md.tx,
                     md.token, ToBytes(height)))
    else None
  }

  /** Instructions for the first n requests. */
  function Built(tokens: Tokens, requests: seq<Request>, n: nat, height: nat, prv: PRVConfig): seq<Instruction>
    requires n <= |requests|
  {
    if n == 0 then []
    else
      var one := BuildOne(tokens, requests[n - 1], height, prv);
      Built(tokens, requests, n - 1, height, prv) + if one.Some? then [one.value] else []
  }

  method BuildBridgeInstructions(tokens: Tokens, requests: seq<Request>, height: nat, prv: PRVConfig)
    returns (instructions: seq<Instruction>)
    ensures instructions == Built(tokens, requests, |requests|, height, prv)
  {
    instructions := [];
    for i := 0 to |requests|
      invariant instructions == Built(tokens, requests, i, height, prv)
    {
      var newInst := BuildOne(tokens, requests[i], height, prv);
      if newInst.Some? {
        instructions := instructions + [newInst.value];
      }
    }
  }

  // ---------------------------------------------------------------------------------------------
  // Processor: the effect of one instruction
  // ---------------------------------------------------------------------------------------------

  datatype Effect = NoEffect | Change(token: Token, up: nat, down: nat, external: seq<Byte>, centralized: bool)

  /** What an instruction does to the counters. `claimed` are the burns the bridge aggregator
      accounts for itself. */
  function EffectOf(tokens: Tokens, claimed: set<TxID>, inst: Instruction): Effect
  {
    match inst
    case Odd(_) => NoEffect
    case Decided(meta, decision) =>
      if !decision.Accepted? then NoEffect
      else if IssuingBridge(meta) == Some(false)
          then Change(decision.token, decision.amount, 0, decision.external, false)
      else if meta == IssuingRequestMeta then Change(decision.token, decision.amount, 0, [], true)
      else if meta == ContractingRequestMeta && decision.token in tokens.centralized
          then Change(decision.token, 0, decision.amount, [], true)
      else NoEffect
    case Confirmed(meta, external, _, amount, tx, t, _) =>
      if ConfirmPrefix(meta).None? || tx in claimed || t !in tokens.decentralized then NoEffect
      else Change(t, 0, BurnedAmount(external, amount, ConfirmPrefix(meta).value), external, false)
  }

  function BurnedAmount(external: seq<Byte>, amount: seq<Byte>, prefix: seq<Byte>): nat
  {
    if prefix + NativeToken == external then Low64(FromBytes(amount) / WeiPerGwei) else Low64(FromBytes(amount))
  }

  /** Both sides use the same network prefix for every burn request type, no two request types share a
      confirm type, and a PRV burn has no effect on the processor's counters. */
  lemma {:induction false} TablesAgree(request: nat)
    ensures Confirmation(request).Some? ==>
              ConfirmPrefix(Confirmation(request).value.0) == Some(Confirmation(request).value.1)
    ensures PRVConfirmation(request).Some? ==> ConfirmPrefix(PRVConfirmation(request).value).None?
    ensures Confirmation(request).Some? ==> PRVConfirmation(request).None? && request != ContractingRequestMeta
    ensures forall other ::
              Confirmation(request).Some? && Confirmation(other).Some? && request != other ==>
                Confirmation(request).value.0 != Confirmation(other).value.0
  {
  }

  /** The request types that are confirmed, in numbers, and the type of each confirmation. */
  lemma {:induction false} ConfirmTypes(request: nat, confirm: nat)
    ensures Confirmation(request).Some? && Confirmation(request).value.0 == confirm <==>
            (request, confirm) in {(27, 72), (240, 241), (96, 97), (242, 243), (252, 253), (326, 152), (329, 153),
                                   (330, 154), (333, 155), (334, 156), (353, 159), (357, 161), (356, 160),
                                   (358, 162), (337, 163)}
  {
  }

  /** The letters of the network a request type burns to. */
  function NetworkOf(request: nat): string
  {
    if request in {252, 326} then "BSC"
    else if request in {329, 330} then "PLG"
    else if request in {333, 334} then "FTM"
    else if request in {353, 357} then "AUR"
    else if request in {356, 358} then "AVX"
    else if request == 337 then "NER"
    else ""
  }

  lemma {:induction false} ConfirmNetworks(request: nat)
    requires Confirmation(request).Some?
    ensures Confirmation(request).value.1 == Letters(NetworkOf(request))
  {
    var letters := NetworkOf(request);
    if letters == "" { assert Letters(letters) == []; } else { LettersAre(letters); }
  }

  /** The bytes of a text of plain letters. */
  function Letters(text: string): seq<Byte>
  {
    seq(|text|, i requires 0 <= i < |text| => (text[i] as int) % 256)
  }

  lemma {:induction false} LettersAre(text: string)
    requires |text| == 3
    ensures Letters(text) == [text[0] as int % 256, text[1] as int % 256, text[2] as int % 256]
  {
  }

  lemma {:induction false} AmountRoundTrip(amount: U64)
    ensures Low64(FromBytes(ToBytes(amount))) == amount
    ensures Low64(FromBytes(ToBytes(amount * WeiPerGwei)) / WeiPerGwei) == amount
  {
    BytesRoundTrip(amount);
    var wei := amount * WeiPerGwei;
    assert wei / WeiPerGwei == amount;
    BytesRoundTrip(wei);
  }

  /** Scaling to wei and back, through bytes and the 64-bit truncation, loses nothing. */
  lemma {:induction false} BurnedAmountIsRequested(tokens: Tokens, confirm: nat, md: Burn, height: nat,
                                                   prefix: seq<Byte>)
    requires BuildBurningConfirmInst(tokens, confirm, Some(md), height, prefix).Some?
    ensures var inst := BuildBurningConfirmInst(tokens, confirm, Some(md), height, prefix).value;
            && inst.Confirmed? && inst.meta == confirm && inst.tx == md.tx && inst.token == md.token
            && inst.remoteAddress == md.remoteAddress && FromBytes(inst.height) == height
            && BurnedAmount(inst.external, inst.amount, prefix) == md.amount
  {
    BytesRoundTrip(height);
    AmountRoundTrip(md.amount);
  }

  /** The identifier on record for a token: the centralized record's if it has one, else the
      decentralized one's; empty when there is none. */
  ghost predicate OnRecord(tokens: Tokens, t: Token, external: seq<Byte>)
  {
    || (t in tokens.centralized && tokens.centralized[t].external != [] && external == tokens.centralized[t].external)
    || ((t in tokens.centralized ==> tokens.centralized[t].external == [])
        && t in tokens.decentralized && tokens.decentralized[t].external != []
        && external == tokens.decentralized[t].external)
  }

  /** An identifier fits a network: its letters, then an address of 20 bytes; on NEAR anything does. */
  predicate FitsNetwork(external: seq<Byte>, prefix: seq<Byte>)
  {
    prefix == NEARPrefix || (|external| == 20 + |prefix| && prefix <= external)
  }

  /** The look-up finds exactly the identifier on record, and only if it fits the network. */
  lemma {:induction false} FoundIff(tokens: Tokens, t: Token, prefix: seq<Byte>, external: seq<Byte>)
    ensures FindExternalTokenID(tokens, t, prefix) == Some(external) <==>
            OnRecord(tokens, t, external) && FitsNetwork(external, prefix)
  {
  }

  /** Whether a burn request is confirmed, by the records alone. */
  ghost predicate Confirmable(tokens: Tokens, request: Request)
  {
    && Confirmation(request.meta).Some? && request.body.Some?
    && exists external :: OnRecord(tokens, request.body.value.token, external)
                          && FitsNetwork(external, Confirmation(request.meta).value.1)
  }

  /** A burn is confirmed if and only if its token has an identifier on record that fits the network, and
      the instruction carries just that identifier and the request's own fields, a network's own coin
      counted in the smaller unit. */
  lemma {:induction false} BurnIsConfirmedIff(tokens: Tokens, request: Request, height: nat, prv: PRVConfig)
    requires Confirmation(request.meta).Some?
    ensures BuildOne(tokens, request, height, prv).Some? <==> Confirmable(tokens, request)
    ensures Confirmable(tokens, request) ==>
              var inst, md := BuildOne(tokens, request, height, prv).value, request.body.value;
              && inst.Confirmed? && inst.meta == Confirmation(request.meta).value.0
              && OnRecord(tokens, md.token, inst.external)
              && inst.token == md.token && inst.tx == md.tx && inst.remoteAddress == md.remoteAddress
              && FromBytes(inst.height) == height
              && FromBytes(inst.amount)
                 == if inst.external == Confirmation(request.meta).value.1 + ZeroAddress()
                    then md.amount * 1_000_000_000 else md.amount
  {
    TablesAgree(request.meta);
    assert ZeroAddress() == NativeToken;
    if request.body.Some? {
      var t := request.body.value.token;
      var (confirm, prefix) := Confirmation(request.meta).value;
      var found := FindExternalTokenID(tokens, t, prefix);
      if found.Some? { FoundIff(tokens, t, prefix, found.value); }
      if external :| OnRecord(tokens, t, external) && FitsNetwork(external, prefix) {
        FoundIff(tokens, t, prefix, external);
        BurnedAmountIsRequested(tokens, confirm, request.body.value, height, prefix);
        BytesRoundTrip(request.body.value.amount);
        BytesRoundTrip(request.body.value.amount * WeiPerGwei);
      }
    }
  }

  /** Twenty zero bytes stand for a network's own coin. */
  function ZeroAddress(): seq<Byte>
  {
    seq(20, _ => 0)
  }

  /** In particular: a token only on the decentralized list, with an identifier of its network. */
  lemma {:induction false} DecentralizedBurnIsConfirmed(tokens: Tokens, request: Request, height: nat, prv: PRVConfig)
    requires Confirmation(request.meta).Some? && request.body.Some?
    requires var t := request.body.value.token;
             && t !in tokens.centralized && t in tokens.decentralized && tokens.decentralized[t].external != []
             && FitsNetwork(tokens.decentralized[t].external, Confirmation(request.meta).value.1)
    ensures var one, t := BuildOne(tokens, request, height, prv), request.body.value.token;
            one.Some? && one.value.Confirmed? && one.value.external == tokens.decentralized[t].external
  {
    var t := request.body.value.token;
    assert OnRecord(tokens, t, tokens.decentralized[t].external);
    BurnIsConfirmedIff(tokens, request, height, prv);
  }

  /** A PRV burn is confirmed for the PRV token only, unscaled, to the contract of its request type. */
  lemma {:induction false} PRVBurnIsConfirmed(tokens: Tokens, request: Request, height: nat, prv: PRVConfig)
    requires request.meta in {274, 275, 338}
    ensures var one := BuildOne(tokens, request, height, prv);
            && (one.Some? <==> request.body.Some? && request.body.value.token == prv.token)
            && (one.Some? ==>
                  var inst, md := one.value, request.body.value;
                  && inst.Confirmed? && inst.external == (if request.meta == 275 then prv.bep20 else prv.erc20)
                  && inst.meta == (if request.meta == 274 then 150 else if request.meta == 275 then 151 else 164)
                  && FromBytes(inst.amount) == md.amount && inst.tx == md.tx && inst.token == md.token
                  && inst.remoteAddress == md.remoteAddress && FromBytes(inst.height) == height)
  {
    if request.body.Some? {
      BytesRoundTrip(request.body.value.amount);
      BytesRoundTrip(height);
    }
  }

  /** Every built instruction stands in the block at the place its request's predecessors leave it. */
  lemma {:induction false} BuiltAt(tokens: Tokens, requests: seq<Request>, n: nat, height: nat, prv: PRVConfig, i: nat)
    requires i < n <= |requests| && BuildOne(tokens, requests[i], height, prv).Some?
    ensures var at := |Built(tokens, requests, i, height, prv)|;
            && at < |Built(tokens, requests, n, height, prv)|
            && Built(tokens, requests, n, height, prv)[at] == BuildOne(tokens, requests[i], height, prv).value
  {
    if i < n - 1 { BuiltAt(tokens, requests, n - 1, height, prv, i); }
  }

  /** Which accepted decisions add supply: the centralized issue and the seven foreign ones, not PRV. */
  lemma {:induction false} IssueAddsSupplyIff(tokens: Tokens, claimed: set<TxID>, meta: nat, decision: Decision,
                                              t: Token)
    ensures var up := UpOf(EffectOf(tokens, claimed, Decided(meta, decision)), t);
            && up == (if decision.Accepted? && decision.token == t
                         && meta in {24, 80, 250, 327, 331, 335, 351, 354} then decision.amount else 0)
  {
  }

  /** What a request should take from the supply: the burned amount, when it is a confirmable burn of
      a decentralized token the aggregator does not account for, or a contraction of a centralized
      token. */
  ghost function Due(tokens: Tokens, claimed: set<TxID>, request: Request, t: Token): nat
  {
    if request.body.None? || request.body.value.token != t then 0
    else if request.meta == ContractingRequestMeta then
      if t in tokens.centralized then request.body.value.amount else 0
    else if Confirmable(tokens, request) && t in tokens.decentralized && request.body.value.tx !in claimed then
      request.body.value.amount
    else 0
  }

  function UpOf(effect: Effect, t: Token): nat
  {
    if effect.Change? && effect.token == t then effect.up else 0
  }

  function DownOf(effect: Effect, t: Token): nat
  {
    if effect.Change? && effect.token == t then effect.down else 0
  }

  /** Producer and processor together: a request takes exactly what is due. */
  lemma {:induction false} RequestIsDeducted(tokens: Tokens, claimed: set<TxID>, request: Request, height: nat,
                                             prv: PRVConfig, t: Token)
    ensures var one := BuildOne(tokens, request, height, prv);
            && (one.Some? ==> DownOf(EffectOf(tokens, claimed, one.value), t) == Due(tokens, claimed, request, t))
            && (one.Some? ==> UpOf(EffectOf(tokens, claimed, one.value), t) == 0)
            && (one.None? ==> Due(tokens, claimed, request, t) == 0)
  {
    TablesAgree(request.meta);
    if Confirmation(request.meta).Some? { BurnIsConfirmedIff(tokens, request, height, prv); }
    if Confirmable(tokens, request) {
      var (confirm, prefix) := Confirmation(request.meta).value;
      BurnedAmountIsRequested(tokens, confirm, request.body.value, height, prefix);
    }
  }

  // ---------------------------------------------------------------------------------------------
  // Processor: counters of a block
  // ---------------------------------------------------------------------------------------------

  datatype UpdatingInfo = UpdatingInfo(countUp: nat, deduct: nat, external: seq<Byte>, centralized: bool)

  type Infos = map<Token, UpdatingInfo>

  /** Counters after one more effect; identifier and kind stay those of the first one. */
  function Apply(infos: Infos, effect: Effect): Infos
  {
    if effect.NoEffect? then infos
    else if effect.token in infos then
      var info := infos[effect.token];
      infos[effect.token := UpdatingInfo(info.countUp + effect.up, info.deduct + effect.down, info.external,
                                         info.centralized)]
    else infos[effect.token := UpdatingInfo(effect.up, effect.down, effect.external, effect.centralized)]
  }

  function Touches(effect: Effect, t: Token): bool
  {
    effect.Change? && effect.token == t
  }

  function EffectsOf(tokens: Tokens, claimed: set<TxID>, insts: seq<Instruction>): (effects: seq<Effect>)
    ensures |effects| == |insts| && forall i :: 0 <= i < |insts| ==> effects[i] == EffectOf(tokens, claimed, insts[i])
  {
    seq(|insts|, i requires 0 <= i < |insts| => EffectOf(tokens, claimed, insts[i]))
  }

  /** Amount counted up for a token by the first n effects. */
  function UpTo(effects: seq<Effect>, n: nat, t: Token): nat
    requires n <= |effects|
  {
    if n == 0 then 0 else UpTo(effects, n - 1, t) + UpOf(effects[n - 1], t)
  }

  function DownTo(effects: seq<Effect>, n: nat, t: Token): nat
    requires n <= |effects|
  {
    if n == 0 then 0 else DownTo(effects, n - 1, t) + DownOf(effects[n - 1], t)
  }

  /** The first of n effects on a token, if any. */
  function FirstTo(effects: seq<Effect>, n: nat, t: Token): Effect
    requires n <= |effects|
  {
    if n == 0 then NoEffect
    else
      var before := FirstTo(effects, n - 1, t);
      if before.Change? then before else if Touches(effects[n - 1], t) then effects[n - 1] else NoEffect
  }

  /** The counters hold, for every token, the two sums over the effects so far. */
  ghost predicate Counted(infos: Infos, effects: seq<Effect>, n: nat)
    requires n <= |effects|
  {
    forall t: Token :: CountedFor(infos, effects, n, t)
  }

  ghost predicate CountedFor(infos: Infos, effects: seq<Effect>, n: nat, t: Token)
    requires n <= |effects|
  {
    var first := FirstTo(effects, n, t);
    && (t in infos <==> first.Change?)
    && (t in infos ==> infos[t] == UpdatingInfo(UpTo(effects, n, t), DownTo(effects, n, t), first.external,
                                                first.centralized))
    && (t !in infos ==> UpTo(effects, n, t) == DownTo(effects, n, t) == 0)
  }

  lemma {:induction false} CountedNext(infos: Infos, effects: seq<Effect>, n: nat)
    requires n < |effects| && Counted(infos, effects, n)
    ensures Counted(Apply(infos, effects[n]), effects, n + 1)
  {
    var now, m := Apply(infos, effects[n]), n + 1;
    forall t: Token
      ensures CountedFor(now, effects, m, t)
    {
      assert CountedFor(infos, effects, n, t);
    }
  }

  method ProcessIssuingBridgeReq(inst: Instruction, infos: Infos, isPRV: bool, ghost tokens: Tokens,
                                 ghost claimed: set<TxID>)
    returns (r: Infos)
    requires IssuingBridge(inst.meta) == Some(isPRV)
    ensures r == Apply(infos, EffectOf(tokens, claimed, inst))
  {
    r := infos;
    if !inst.Decided? || !inst.decision.Accepted? {
      return;
    }
    var accepted := inst.decision;
    if !isPRV {
      var info := UpdatingInfo(accepted.amount, 0, accepted.external, false);
      if accepted.token in infos {
        info := infos[accepted.token].(countUp := infos[accepted.token].countUp + accepted.amount);
      }
      r := infos[accepted.token := info];
    }
  }

  method ProcessIssuingReq(inst: Instruction, infos: Infos, ghost tokens: Tokens, ghost claimed: set<TxID>)
    returns (r: Infos)
    requires inst.meta == IssuingRequestMeta
    ensures r == Apply(infos, EffectOf(tokens, claimed, inst))
  {
    r := infos;
    if !inst.Decided? || !inst.decision.Accepted? {
      return;
    }
    var accepted := inst.decision;
    var info := UpdatingInfo(accepted.amount, 0, [], true);
    if accepted.token in infos {
      info := infos[accepted.token].(countUp := infos[accepted.token].countUp + accepted.amount);
    }
    r := infos[accepted.token := info];
  }

  method ProcessContractingReq(tokens: Tokens, inst: Instruction, infos: Infos, ghost claimed: set<TxID>)
    returns (r: Infos)
    requires inst.meta == ContractingRequestMeta
    ensures r == Apply(infos, EffectOf(tokens, claimed, inst))
  {
    r := infos;
    if !inst.Decided? || !inst.decision.Accepted? {
      return;
    }
    var md := inst.decision;
    if md.token !in tokens.centralized {
      return;
    }
    var info := UpdatingInfo(0, md.amount, [], true);
    if md.token in infos {
      info := infos[md.token].(deduct := infos[md.token].deduct + md.amount);
    }
    r := infos[md.token := info];
  }

  method ProcessBurningReq(tokens: Tokens, inst: Instruction, infos: Infos, prefix: seq<Byte>, claimed: set<TxID>)
    returns (r: Infos)
    requires ConfirmPrefix(inst.meta) == Some(prefix)
    ensures r == Apply(infos, EffectOf(tokens, claimed, inst))
  {
    r := infos;
    if !inst.Confirmed? || inst.tx in claimed {
      return;
    }
    var amt := FromBytes(inst.amount);
    var amount: nat;
    if prefix + NativeToken == inst.external {
      amount := Low64(amt / WeiPerGwei);
    } else {
      amount := Low64(amt);
    }
    if inst.token !in tokens.decentralized {
      return;
    }
    var info := UpdatingInfo(0, amount, inst.external, false);
    if inst.token in infos {
      info := infos[inst.token].(deduct := infos[inst.token].deduct + amount);
    }
    r := infos[inst.token := info];
  }

  /** The dispatch on the metadata type. */
  method ProcessOne(tokens: Tokens, inst: Instruction, infos: Infos, claimed: set<TxID>) returns (r: Infos)
    ensures r == Apply(infos, EffectOf(tokens, claimed, inst))
  {
    if IssuingBridge(inst.meta).Some? {
      r := ProcessIssuingBridgeReq(inst, infos, IssuingBridge(inst.meta).value, tokens, claimed);
    } else if inst.meta == IssuingRequestMeta {
      r := ProcessIssuingReq(inst, infos, tokens, claimed);
    } else if inst.meta == ContractingRequestMeta {
      r := ProcessContractingReq(tokens, inst, infos, claimed);
    } else if ConfirmPrefix(inst.meta).Some? {
      r := ProcessBurningReq(tokens, inst, infos, ConfirmPrefix(inst.meta).value, claimed);
    } else {
      r := infos;
    }
  }

  /** The counting loop of processBridgeInstructions. */
  method CountInstructions(tokens: Tokens, insts: seq<Instruction>, claimed: set<TxID>) returns (infos: Infos)
    ensures Counted(infos, EffectsOf(tokens, claimed, insts), |insts|)
  {
    infos := map[];
    ghost var effects := EffectsOf(tokens, claimed, insts);
    for i := 0 to |insts|
      invariant Counted(infos, effects, i)
    {
      CountedNext(infos, effects, i);
      infos := ProcessOne(tokens, insts[i], infos, claimed);
    }
  }

  // ---------------------------------------------------------------------------------------------
  // Processor: writing the net amounts
  // ---------------------------------------------------------------------------------------------

  function AtLeastZero(x: int): nat
  {
    if x < 0 then 0 else x
  }

  datatype Operator = Plus | Minus | Neither

  function WithInfo(tokens: Tokens, t: Token, centralized: bool, info: TokenInfo): Tokens
  {
    if centralized then tokens.(centralized := tokens.centralized[t := info])
    else tokens.(decentralized := tokens.decentralized[t := info])
  }

  /** UpdateBridgeTokenInfo: a missing token is created, a balance never goes below zero. */
  function Updated(tokens: Tokens, t: Token, external: seq<Byte>, centralized: bool, amount: nat, op: Operator): Tokens
  {
    var list := ListOf(tokens, centralized);
    if t !in list then WithInfo(tokens, t, centralized, TokenInfo(external, if op == Minus then 0 else amount))
    else
      var was := list[t];
      var now :=
        if op == Plus then was.amount + amount
        else if was.amount <= amount then 0
        else was.amount - amount;
      WithInfo(tokens, t, centralized, TokenInfo(was.external, now))
  }

  /** The net step of one token: plus, minus or neither. */
  function NetUpdate(tokens: Tokens, t: Token, info: UpdatingInfo): Tokens
  {
    if info.countUp > info.deduct
        then Updated(tokens, t, info.external, info.centralized, info.countUp - info.deduct, Plus)
    else if info.countUp < info.deduct
        then Updated(tokens, t, info.external, info.centralized, info.deduct - info.countUp, Minus)
    else Updated(tokens, t, info.external, info.centralized, 0, Neither)
  }

  /** What the record of a token becomes: the net change is added, and the result is at least zero. */
  function Settled(before: Option<TokenInfo>, info: UpdatingInfo): TokenInfo
  {
    match before
    case None => TokenInfo(info.external, AtLeastZero(info.countUp - info.deduct))
    case Some(was) => TokenInfo(was.external, AtLeastZero(was.amount + info.countUp - info.deduct))
  }

  function Record(tokens: Tokens, t: Token, centralized: bool): Option<TokenInfo>
  {
    var list := ListOf(tokens, centralized);
    if t in list then Some(list[t]) else None
  }

  lemma {:induction false} NetUpdateSettles(tokens: Tokens, t: Token, info: UpdatingInfo, u: Token, centralized: bool)
    ensures Record(NetUpdate(tokens, t, info), u, centralized)
         == if u == t && centralized == info.centralized then Some(Settled(Record(tokens, t, centralized), info))
            else Record(tokens, u, centralized)
  {
  }

  /** A token's record after the block, given its counters. */
  function RecordAfter(before: Tokens, infos: Infos, t: Token, centralized: bool): Option<TokenInfo>
  {
    if t in infos && infos[t].centralized == centralized then Some(Settled(Record(before, t, centralized), infos[t]))
    else Record(before, t, centralized)
  }

  class BridgeState {
    var tokens: Tokens

    constructor (initial: Tokens)
      ensures tokens == initial
    {
      tokens := initial;
    }

    /** The writing loop goes over the counters in any order. */
    method WriteInfos(infos: Infos)
      modifies this
      ensures forall t: Token, c: bool :: Record(tokens, t, c) == RecordAfter(old(tokens), infos, t, c)
    {
      var left := infos.Keys;
      while left != {}
        invariant left <= infos.Keys
        invariant forall t: Token, c: bool ::
                    Record(tokens, t, c) == if t in left then Record(old(tokens), t, c)
                        else RecordAfter(old(tokens), infos, t, c)
        decreases |left|
      {
        var t :| t in left;
        forall u: Token, c: bool
          ensures Record(NetUpdate(tokens, t, infos[t]), u, c)
               == if u in left - {t} then Record(old(tokens), u, c) else RecordAfter(old(tokens), infos, u, c)
        {
          NetUpdateSettles(tokens, t, infos[t], u, c);
        }
        tokens := NetUpdate(tokens, t, infos[t]);
        left := left - {t};
      }
    }

    /** processBridgeInstructions. */
    method ProcessBridgeInstructions(insts: seq<Instruction>, claimed: set<TxID>)
      modifies this
      ensures forall t: Token, c: bool ::
                Record(tokens, t, c) == Outcome(old(tokens), EffectsOf(old(tokens), claimed, insts), t, c)
    {
      ghost var effects := EffectsOf(tokens, claimed, insts);
      var infos := CountInstructions(tokens, insts, claimed);
      WriteInfos(infos);
      forall t: Token, c: bool
        ensures Record(tokens, t, c) == Outcome(old(tokens), effects, t, c)
      {
        assert CountedFor(infos, effects, |effects|, t);
      }
    }
  }

  /** Net change of a token's supply over a block. */
  function Net(effects: seq<Effect>, t: Token): int
  {
    UpTo(effects, |effects|, t) - DownTo(effects, |effects|, t)
  }

  function First(effects: seq<Effect>, t: Token): Effect
  {
    FirstTo(effects, |effects|, t)
  }

  /** A token's record after a block: the first effect chooses the list and, for a new token, the
      external identifier; the net change goes there, down to zero at most. */
  function Outcome(before: Tokens, effects: seq<Effect>, t: Token, centralized: bool): Option<TokenInfo>
  {
    var first, record := First(effects, t), Record(before, t, centralized);
    if first.Change? && first.centralized == centralized then
      Some(match record
           case None => TokenInfo(first.external, AtLeastZero(Net(effects, t)))
           case Some(was) => TokenInfo(was.external, AtLeastZero(was.amount + Net(effects, t))))
    else record
  }

  lemma {:induction false} FirstIs(effects: seq<Effect>, n: nat, t: Token, i: nat)
    requires i < n <= |effects| && Touches(effects[i], t) && forall j :: 0 <= j < i ==> !Touches(effects[j], t)
    ensures FirstTo(effects, n, t) == effects[i]
  {
    if i < n - 1 {
      FirstIs(effects, n - 1, t, i);
    } else {
      NoneBefore(effects, i, t);
    }
  }

  lemma {:induction false} NoneBefore(effects: seq<Effect>, n: nat, t: Token)
    requires n <= |effects| && forall j :: 0 <= j < n ==> !Touches(effects[j], t)
    ensures FirstTo(effects, n, t) == NoEffect
  {
    if n > 0 { NoneBefore(effects, n - 1, t); }
  }

  /** A token first seen in an accepted issue enters the list of that kind of bridge: a foreign one with
      the identifier of the issue, a centralized one without. */
  lemma {:induction false} IssuedTokenIsRecorded(before: Tokens, claimed: set<TxID>, insts: seq<Instruction>, i: nat)
    requires i < |insts| && insts[i].Decided? && insts[i].decision.Accepted?
    requires insts[i].meta in {24, 80, 250, 327, 331, 335, 351, 354}
    requires var t := insts[i].decision.token;
             && t !in before.centralized && t !in before.decentralized
             && forall j :: 0 <= j < i ==> !Touches(EffectOf(before, claimed, insts[j]), t)
    ensures var t, foreign := insts[i].decision.token, insts[i].meta != 24;
            var effects := EffectsOf(before, claimed, insts);
            && Outcome(before, effects, t, !foreign)
               == Some(TokenInfo(if foreign then insts[i].decision.external else [], AtLeastZero(Net(effects, t))))
            && Outcome(before, effects, t, foreign) == None
  {
    var t, effects := insts[i].decision.token, EffectsOf(before, claimed, insts);
    FirstIs(effects, |effects|, t, i);
  }

  /** A deduction that comes first for its token is settled in the list of its bridge, a contraction in
      the centralized one and a burn in the decentralized one; the other list keeps its record. */
  lemma {:induction false} DeductionIsRecorded(before: Tokens, claimed: set<TxID>, insts: seq<Instruction>, i: nat,
                                               t: Token)
    requires i < |insts| && forall j :: 0 <= j < i ==> !Touches(EffectOf(before, claimed, insts[j]), t)
    requires DownOf(EffectOf(before, claimed, insts[i]), t) > 0
    ensures var effects, centralized := EffectsOf(before, claimed, insts), insts[i].Decided?;
            var list := if centralized then before.centralized else before.decentralized;
            && t in list
            && Outcome(before, effects, t, centralized)
               == Some(TokenInfo(list[t].external, AtLeastZero(list[t].amount + Net(effects, t))))
            && Outcome(before, effects, t, !centralized) == Record(before, t, !centralized)
  {
    var effects := EffectsOf(before, claimed, insts);
    FirstIs(effects, |effects|, t, i);
  }

  // ---------------------------------------------------------------------------------------------
  // Order of the instructions
  // ---------------------------------------------------------------------------------------------

  /** The list without its entry at i. */
  function Dropped<T>(s: seq<T>, i: nat): seq<T>
    requires i < |s|
  {
    s[..i] + s[i + 1..]
  }

  function Sum<T(!new)>(s: seq<T>, f: T -> int): int
  {
    if s == [] then 0 else Sum(s[..|s| - 1], f) + f(s[|s| - 1])
  }

  lemma {:induction false} SumDropped<T(!new)>(s: seq<T>, f: T -> int, i: nat)
    requires i < |s|
    ensures Sum(s, f) == Sum(Dropped(s, i), f) + f(s[i])
    decreases |s|
  {
    var m := |s| - 1;
    if i == m {
      assert Dropped(s, i) == s[..m];
    } else {
      SumDropped(s[..m], f, i);
      var rest := Dropped(s, i);
      assert rest[..|rest| - 1] == Dropped(s[..m], i);
      assert rest[|rest| - 1] == s[m];
    }
  }

  lemma {:induction false} DroppedMultiset<T>(s: seq<T>, i: nat)
    requires i < |s|
    ensures multiset(Dropped(s, i)) == multiset(s) - multiset{s[i]}
  {
    assert s == s[..i] + [s[i]] + s[i + 1..];
  }

  lemma {:induction false} SumOfPermutation<T(!new)>(a: seq<T>, b: seq<T>, f: T -> int)
    requires multiset(a) == multiset(b)
    ensures Sum(a, f) == Sum(b, f)
    decreases |a|
  {
    if a == [] {
      assert |multiset(b)| == 0;
    } else {
      var last := |a| - 1;
      assert a[last] in multiset(b);
      var i :| 0 <= i < |b| && b[i] == a[last];
      DroppedMultiset(a, last);
      DroppedMultiset(b, i);
      SumOfPermutation(Dropped(a, last), Dropped(b, i), f);
      SumDropped(a, f, last);
      SumDropped(b, f, i);
    }
  }

  function UpBy(tokens: Tokens, claimed: set<TxID>, t: Token): Instruction -> int
  {
    (inst: Instruction) => UpOf(EffectOf(tokens, claimed, inst), t)
  }

  function DownBy(tokens: Tokens, claimed: set<TxID>, t: Token): Instruction -> int
  {
    (inst: Instruction) => DownOf(EffectOf(tokens, claimed, inst), t)
  }

  function TouchBy(tokens: Tokens, claimed: set<TxID>, t: Token): Instruction -> int
  {
    (inst: Instruction) => if Touches(EffectOf(tokens, claimed, inst), t) then 1 else 0
  }

  lemma {:induction false} SumsTo(tokens: Tokens, claimed: set<TxID>, insts: seq<Instruction>, n: nat, t: Token)
    requires n <= |insts|
    ensures var effects := EffectsOf(tokens, claimed, insts);
            && UpTo(effects, n, t) == Sum(insts[..n], UpBy(tokens, claimed, t))
            && DownTo(effects, n, t) == Sum(insts[..n], DownBy(tokens, claimed, t))
            && Sum(insts[..n], TouchBy(tokens, claimed, t)) >= 0
            && (FirstTo(effects, n, t).Change? <==> Sum(insts[..n], TouchBy(tokens, claimed, t)) > 0)
  {
    if n > 0 {
      SumsTo(tokens, claimed, insts, n - 1, t);
      assert insts[..n][..n - 1] == insts[..n - 1];
    }
  }

  /** In whatever order a block lists its instructions, the supply of every token changes by the same
      net amount, and the same tokens are touched. */
  lemma {:induction false} NetIgnoresOrder(tokens: Tokens, claimed: set<TxID>, a: seq<Instruction>, b: seq<Instruction>,
                                           t: Token)
    requires multiset(a) == multiset(b)
    ensures Net(EffectsOf(tokens, claimed, a), t) == Net(EffectsOf(tokens, claimed, b), t)
    ensures First(EffectsOf(tokens, claimed, a), t).Change? == First(EffectsOf(tokens, claimed, b), t).Change?
  {
    SumsTo(tokens, claimed, a, |a|, t);
    SumsTo(tokens, claimed, b, |b|, t);
    assert a[..|a|] == a && b[..|b|] == b;
    SumOfPermutation(a, b, UpBy(tokens, claimed, t));
    SumOfPermutation(a, b, DownBy(tokens, claimed, t));
    SumOfPermutation(a, b, TouchBy(tokens, claimed, t));
  }

  function AmountAfter(before: Tokens, effects: seq<Effect>, t: Token, centralized: bool): nat
  {
    var record := Outcome(before, effects, t, centralized);
    if record.Some? then record.value.amount else 0
  }

  /** The recorded amounts, by contrast, depend on the order exactly when the first instruction for
      a token can be of either kind and the write would not be idle: a token of both lists gets the
      whole net change in the list of the first instruction. */
  lemma {:induction false} AmountsIgnoreOrderIff(before: Tokens, claimed: set<TxID>, a: seq<Instruction>,
                                                 b: seq<Instruction>, t: Token)
    requires multiset(a) == multiset(b)
    ensures var x, y := EffectsOf(before, claimed, a), EffectsOf(before, claimed, b);
            (forall c: bool :: AmountAfter(before, x, t, c) == AmountAfter(before, y, t, c)) <==>
              || First(x, t).NoEffect? || First(y, t).NoEffect?
              || First(x, t).centralized == First(y, t).centralized
              || Net(x, t) == 0
              || (Net(x, t) < 0 && AmountOf(before, t, true) == 0 && AmountOf(before, t, false) == 0)
  {
    NetIgnoresOrder(before, claimed, a, b, t);
    var x, y := EffectsOf(before, claimed, a), EffectsOf(before, claimed, b);
    AmountAfterIs(before, x, t, true);
    AmountAfterIs(before, x, t, false);
    AmountAfterIs(before, y, t, true);
    AmountAfterIs(before, y, t, false);
    FirstIsTouch(x, |x|, t);
    if forall c: bool :: AmountAfter(before, x, t, c) == AmountAfter(before, y, t, c) {
      assert AmountAfter(before, x, t, true) == AmountAfter(before, y, t, true);
      assert AmountAfter(before, x, t, false) == AmountAfter(before, y, t, false);
    }
  }

  lemma {:induction false} AmountAfterIs(before: Tokens, effects: seq<Effect>, t: Token, c: bool)
    ensures AmountAfter(before, effects, t, c)
         == if First(effects, t).Change? && First(effects, t).centralized == c
            then AtLeastZero(AmountOf(before, t, c) + Net(effects, t)) else AmountOf(before, t, c)
  {
  }

  lemma {:induction false} FirstIsTouch(effects: seq<Effect>, n: nat, t: Token)
    requires n <= |effects|
    ensures FirstTo(effects, n, t).NoEffect? ==> UpTo(effects, n, t) == DownTo(effects, n, t) == 0
  {
    if n > 0 { FirstIsTouch(effects, n - 1, t); }
  }

  lemma {:induction false} TwoEffects(effects: seq<Effect>, t: Token)
    requires |effects| == 2 && Touches(effects[0], t) && Touches(effects[1], t)
    ensures First(effects, t) == effects[0]
    ensures Net(effects, t) == effects[0].up - effects[0].down + effects[1].up - effects[1].down
  {
    assert FirstTo(effects, 1, t) == effects[0];
    assert UpTo(effects, 1, t) == UpTo(effects, 0, t) + effects[0].up;
    assert DownTo(effects, 1, t) == DownTo(effects, 0, t) + effects[0].down;
  }

  /** One token issued once through each kind of bridge: the order decides which list grows. The issuing
      builders reject such a token, so this concerns a block that no honest producer builds. */
  lemma {:induction false} OrderMattersExample(t: Token)
    ensures var before := Tokens(map[], map[]);
            var a, b := Decided(IssuingRequestMeta, Accepted(t, [], 5)), Decided(80, Accepted(t, NativeToken, 7));
            && AmountAfter(before, EffectsOf(before, {}, [a, b]), t, true) == 12
            && AmountAfter(before, EffectsOf(before, {}, [b, a]), t, true) == 0
            && AmountAfter(before, EffectsOf(before, {}, [b, a]), t, false) == 12
  {
    var before := Tokens(map[], map[]);
    var a, b := Decided(IssuingRequestMeta, Accepted(t, [], 5)), Decided(80, Accepted(t, NativeToken, 7));
    var x, y := EffectsOf(before, {}, [a, b]), EffectsOf(before, {}, [b, a]);
    TwoEffects(x, t);
    TwoEffects(y, t);
    AmountAfterIs(before, x, t, true);
    AmountAfterIs(before, y, t, true);
    AmountAfterIs(before, y, t, false);
  }

  // ---------------------------------------------------------------------------------------------
  // Producer and processor over a whole block
  // ---------------------------------------------------------------------------------------------

  /** What the first n requests should take from the supply of a token. */
  ghost function DueTo(tokens: Tokens, claimed: set<TxID>, requests: seq<Request>, n: nat, t: Token): nat
    requires n <= |requests|
  {
    if n == 0 then 0 else DueTo(tokens, claimed, requests, n - 1, t) + Due(tokens, claimed, requests[n - 1], t)
  }

  lemma {:induction false} ToPrefix(effects: seq<Effect>, more: seq<Effect>, n: nat, t: Token)
    requires n <= |effects|
    ensures UpTo(effects + more, n, t) == UpTo(effects, n, t) && DownTo(effects + more, n, t) == DownTo(effects, n, t)
  {
    if n > 0 { ToPrefix(effects, more, n - 1, t); }
  }

  /** Whatever a block's requests burn is what the processor takes from each token: no request is
      lost between the two sides, none is taken twice or rescaled, and none adds supply. */
  lemma {:induction false} BuiltIsDeducted(tokens: Tokens, claimed: set<TxID>, requests: seq<Request>, n: nat,
                                           height: nat, prv: PRVConfig, t: Token)
    requires n <= |requests|
    ensures var effects := EffectsOf(tokens, claimed, Built(tokens, requests, n, height, prv));
            UpTo(effects, |effects|, t) == 0 && DownTo(effects, |effects|, t) == DueTo(tokens, claimed, requests, n, t)
  {
    if n > 0 {
      BuiltIsDeducted(tokens, claimed, requests, n - 1, height, prv, t);
      RequestIsDeducted(tokens, claimed, requests[n - 1], height, prv, t);
      var insts, one := Built(tokens, requests, n - 1, height, prv), BuildOne(tokens, requests[n - 1], height, prv);
      if one.Some? {
        assert Built(tokens, requests, n, height, prv) == insts + [one.value];
        OneMore(tokens, claimed, insts, one.value, t);
      } else {
        assert Built(tokens, requests, n, height, prv) == insts;
      }
    }
  }

  lemma {:induction false} OneMore(tokens: Tokens, claimed: set<TxID>, insts: seq<Instruction>, inst: Instruction,
                                   t: Token)
    ensures var effects, longer, last := EffectsOf(tokens, claimed, insts), EffectsOf(tokens, claimed, insts + [inst]),
        EffectOf(tokens, claimed, inst);
            && UpTo(longer, |longer|, t) == UpTo(effects, |effects|, t) + UpOf(last, t)
            && DownTo(longer, |longer|, t) == DownTo(effects, |effects|, t) + DownOf(last, t)
  {
    var effects, last := EffectsOf(tokens, claimed, insts), EffectOf(tokens, claimed, inst);
    assert EffectsOf(tokens, claimed, insts + [inst]) == effects + [last];
    ToPrefix(effects, [last], |effects|, t);
  }
}

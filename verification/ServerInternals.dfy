/** The 64-bit user data that ties a completion to its client and operation. */
module ServerInternals {
  import opened Bits

  const REQ_RESP_OFFSET: nat := 0x7FFF_FFFF_FFFF_FFFF
  const BUFFER_REGISTER_CODE: nat := 0xFAB
  const CODE_ACCEPT: nat := 0xA
  const INIT_REQUEST: nat := 0xCCA
  const POLL_EVENT: nat := 0xAAA
  const SEND_EVENT: nat := 0xCCC

  type u16 = x: nat | x < 0x1_0000
  type u32 = x: nat | x < 0x1_0000_0000

  datatype UserData = UserData(clientId: u32, bufferId: u16, uniqId: u16)

  /** (uniq << 48) | (buffer << 32) | (client + OFFSET): the addition binds tighter than the ors. */
  function Pack(u: UserData): nat {
    BitOr(BitOr(u.uniqId * 0x1_0000_0000_0000, u.bufferId * 0x1_0000_0000), u.clientId + REQ_RESP_OFFSET)
  }

  /** The source subtracts without a check; the data must be at least the offset. */
  function Unpack(data: nat): UserData
    requires data >= REQ_RESP_OFFSET
  {
    var raw := data - REQ_RESP_OFFSET;
    UserData(raw % 0x1_0000_0000, raw / 0x1_0000_0000 % 0x1_0000, raw / 0x1_0000_0000_0000 % 0x1_0000)
  }

  lemma Powers()
    ensures Pow2(15) == 0x8000 && Pow2(16) == 0x1_0000 && Pow2(31) == 0x8000_0000
    ensures Pow2(32) == 0x1_0000_0000 && Pow2(48) == 0x1_0000_0000_0000 && Pow2(63) == 0x8000_0000_0000_0000
  {
    assert Pow2(15) == 0x8000 && Pow2(16) == 0x1_0000;
    hide Pow2;
    Pow2Sum(15, 16);
    Pow2Sum(16, 16);
    Pow2Sum(16, 32);
    Pow2Sum(31, 32);
  }

  /** The two upper fields do not overlap. */
  lemma PackUpper(uniq: u16, buffer: u16)
    ensures BitOr(uniq * 0x1_0000_0000_0000, buffer * 0x1_0000_0000) ==
      uniq * 0x1_0000_0000_0000 + buffer * 0x1_0000_0000
  {
    hide Pow2;
    Powers();
    OrSplit(uniq, 0, 0, buffer * 0x1_0000_0000, 48);
  }

  /** For a client other than 0 the sum has bit 63 set and client - 1 below. */
  lemma PackClient(u: UserData)
    requires u.clientId >= 1
    ensures Pack(u) == 0x8000_0000_0000_0000 + u.uniqId % 0x8000 * 0x1_0000_0000_0000
                       + u.bufferId * 0x1_0000_0000 + (u.clientId - 1)
  {
    hide BitOr, Pow2;
    Powers();
    PackUpper(u.uniqId, u.bufferId);
    var hi := u.uniqId * 0x1_0000 + u.bufferId;
    OrSplit(hi, 0, 0x8000_0000, u.clientId - 1, 32);
    OrZero(u.clientId - 1);
    OrTop(hi);
  }

  lemma OrZero(x: nat)
    ensures BitOr(0, x) == x
  {
  }

  /** Or with bit 31 of a 32-bit word: the low 31 bits stay, bit 31 is set. */
  lemma OrTop(hi: nat)
    requires hi < 0x1_0000_0000
    ensures BitOr(hi, 0x8000_0000) == hi % 0x8000_0000 + 0x8000_0000
  {
    hide BitOr, Pow2;
    Powers();
    OrSplit(hi / 0x8000_0000, hi % 0x8000_0000, 1, 0, 31);
    OrOne(hi / 0x8000_0000);
    OrZeroRight(hi % 0x8000_0000);
  }

  lemma OrOne(x: nat)
    requires x <= 1
    ensures BitOr(x, 1) == 1
  {
  }

  lemma OrZeroRight(x: nat)
    ensures BitOr(x, 0) == x
  {
  }

  /** For client 0 the sum is all ones below bit 63, so the or keeps nothing but bit 15 of uniq. */
  lemma PackClientZero(u: UserData)
    requires u.clientId == 0
    ensures Pack(u) == u.uniqId / 0x8000 * 0x8000_0000_0000_0000 + REQ_RESP_OFFSET
  {
    hide BitOr, Pow2;
    Powers();
    PackUpper(u.uniqId, u.bufferId);
    var low := u.uniqId % 0x8000 * 0x1_0000_0000_0000 + u.bufferId * 0x1_0000_0000;
    OrSplit(u.uniqId / 0x8000, low, 0, REQ_RESP_OFFSET, 63);
    OrZeroRight(u.uniqId / 0x8000);
    OrOnes(low, 63);
  }

  lemma ClientField(upper: nat, client: u32)
    ensures (upper * 0x1_0000_0000 + client) / 0x1_0000_0000 == upper
    ensures (upper * 0x1_0000_0000 + client) % 0x1_0000_0000 == client
  {
  }

  lemma BufferField(uniq: u16, buffer: u16)
    ensures (uniq * 0x1_0000 + buffer) % 0x1_0000 == buffer
  {
  }

  lemma UniqField(uniq: u16, lower: nat)
    requires lower < 0x1_0000_0000_0000
    ensures (uniq * 0x1_0000_0000_0000 + lower) / 0x1_0000_0000_0000 % 0x1_0000 == uniq
  {
    assert (uniq * 0x1_0000_0000_0000 + lower) / 0x1_0000_0000_0000 == uniq;
  }

  lemma UnpackFields(raw: nat, client: u32, buffer: u16, uniq: u16)
    requires raw % 0x1_0000_0000 == client && raw / 0x1_0000_0000 % 0x1_0000 == buffer
    requires raw / 0x1_0000_0000_0000 % 0x1_0000 == uniq
    ensures Unpack(REQ_RESP_OFFSET + raw) == UserData(client, buffer, uniq)
  {
  }

  lemma UnpackSum(uniq: u16, buffer: u16, client: u32)
    ensures Unpack(REQ_RESP_OFFSET + uniq * 0x1_0000_0000_0000 + buffer * 0x1_0000_0000 + client)
      == UserData(client, buffer, uniq)
  {
    ClientField(uniq * 0x1_0000 + buffer, client);
    BufferField(uniq, buffer);
    UniqField(uniq, buffer * 0x1_0000_0000 + client);
    var raw := uniq * 0x1_0000_0000_0000 + buffer * 0x1_0000_0000 + client;
    assert raw == (uniq * 0x1_0000 + buffer) * 0x1_0000_0000 + client;
    assert raw == uniq * 0x1_0000_0000_0000 + (buffer * 0x1_0000_0000 + client);
    UnpackFields(raw, client, buffer, uniq);
  }

  /**
   The codec, exactly: bit 15 of uniq is lost for every client but 0, and everything else is
   lost for client 0.  Dispatch always routes packed data to the response handler.
   */
  lemma PackUnpack(u: UserData)
    ensures REQ_RESP_OFFSET <= Pack(u) < 0x1_0000_0000_0000_0000
    ensures u.clientId >= 1 ==> Unpack(Pack(u)) == UserData(u.clientId, u.bufferId, u.uniqId % 0x8000)
    ensures u.clientId == 0 ==> Unpack(Pack(u)) == UserData(0, 0, u.uniqId / 0x8000 * 0x8000)
  {
    hide Pack, Unpack;
    if u.clientId >= 1 {
      PackClient(u);
      UnpackSum(u.uniqId % 0x8000, u.bufferId, u.clientId);
    } else {
      PackClientZero(u);
      UnpackSum(u.uniqId / 0x8000 * 0x8000, 0, 0);
    }
  }

  /** A record survives the round trip exactly when it avoids client 0 with data, and bit 15. */
  lemma RoundTripsIff(u: UserData)
    ensures Pack(u) >= REQ_RESP_OFFSET
    ensures Unpack(Pack(u)) == u <==>
      if u.clientId >= 1 then u.uniqId < 0x8000 else u.bufferId == 0 && u.uniqId % 0x8000 == 0
  {
    hide Pack, Unpack;
    PackUnpack(u);
  }

  /** The user data of an operation on a client's connection; the table index is cut to 32 bits. */
  function Tag(id: nat, code: u16): nat {
    Pack(UserData(id % 0x1_0000_0000, 0, code))
  }

  /** The three operation codes survive for every client the table can name. */
  lemma TagReads(id: nat, code: u16)
    requires 1 <= id < 0x1_0000_0000 && code < 0x8000
    ensures Tag(id, code) >= REQ_RESP_OFFSET
    ensures Unpack(Tag(id, code)) == UserData(id, 0, code)
  {
    hide Pack, Unpack;
    PackUnpack(UserData(id, 0, code));
  }
}

/** The protected master key file: its byte format, its writer and its strict reader. */
module KeyFiles {
  import opened Wrappers

  type byte = n: int | 0 <= n <= 255
  type Bytes = seq<byte>

  datatype CredentialStoreError =
    | InvalidProtectedKeyFile
    | IoFailed
    | KeyGenerationFailed
    | KeyProtectionFailed
    | KeyUnprotectFailed

  /** WFUKEY01 */
  const MAGIC: Bytes := [0x57, 0x46, 0x55, 0x4B, 0x45, 0x59, 0x30, 0x31]
  const VERSION: byte := 1
  const MAX_BLOB_LENGTH: nat := 64 * 1024

  predicate IsBlob(blob: Bytes) {
    0 < |blob| <= MAX_BLOB_LENGTH
  }

  /** The four bytes of a number, lowest first. */
  function LittleEndian(n: nat): Bytes
    requires n < 0x1_0000_0000
  {
    [n % 256, n / 256 % 256, n / 256 / 256 % 256, n / 256 / 256 / 256]
  }

  function FromLittleEndian(b: Bytes): (n: nat)
    requires |b| == 4
    ensures n < 0x1_0000_0000
  {
    var b0: int, b1: int, b2: int, b3: int := b[0], b[1], b[2], b[3];
    b0 + 256 * (b1 + 256 * (b2 + 256 * b3))
  }

  lemma Digit(n: nat, low: byte, rest: nat)
    ensures n == low + 256 * rest <==> low == n % 256 && rest == n / 256
  {
  }

  /** Four bytes spell a number exactly when they are its bytes. */
  lemma LittleEndianRoundTrip(n: nat, b: Bytes)
    requires n < 0x1_0000_0000 && |b| == 4
    ensures FromLittleEndian(b) == n <==> b == LittleEndian(n)
  {
    var b1: int, b2: int, b3: int := b[1], b[2], b[3];
    Digit(n, b[0], b1 + 256 * (b2 + 256 * b3));
    Digit(n / 256, b[1], b2 + 256 * b3);
    Digit(n / 256 / 256, b[2], b3);
  }

  /** The first of the four bytes is the lowest one. */
  lemma LowestByteFirst(n: nat, b: Bytes)
    requires n < 0x1_0000_0000 && b == LittleEndian(n)
    ensures n == b[0] as int + 256 * (b[1] as int) + 65536 * (b[2] as int) + 16777216 * (b[3] as int)
  {
    LittleEndianRoundTrip(n, b);
  }

  /** The content of a key file that protects `blob`. */
  function Encode(blob: Bytes): Bytes
    requires IsBlob(blob)
  {
    MAGIC + [VERSION] + LittleEndian(|blob|) + blob
  }

  /** The blob a key file holds, if its content is exactly the encoding of one. */
  function Decode(content: Bytes): Option<Bytes> {
    if |content| >= 13 && IsBlob(content[13..]) && content == Encode(content[13..]) then Some(content[13..]) else None
  }

  lemma DecodeInvertsEncode(content: Bytes, blob: Bytes)
    ensures Decode(content) == Some(blob) <==> IsBlob(blob) && content == Encode(blob)
  {
    if IsBlob(blob) {
      assert Encode(blob)[13..] == blob;
    }
  }

  /** The file format: eight letters, the version, the length with its lowest byte first, and the blob. */
  lemma KeyFileLayout(content: Bytes, blob: Bytes)
    requires Decode(content) == Some(blob)
    ensures |content| == 13 + |blob| && 1 <= |blob| <= 65536
    ensures forall i :: 0 <= i < 8 ==> content[i] as char == "WFUKEY01"[i]
    ensures content[8] == 1
    ensures |blob| == content[9] as int + 256 * (content[10] as int) + 65536 * (content[11] as int) + 16777216 * (content[12] as int)
    ensures forall i :: 0 <= i < |blob| ==> content[13 + i] == blob[i]
  {
    DecodeByParts(content);
    LowestByteFirst(|blob|, content[9..13]);
    assert content[..8] == MAGIC;
    forall i | 0 <= i < 8 ensures content[i] as char == "WFUKEY01"[i] {
      assert content[i] == content[..8][i];
    }
  }

  /** A content holds a key exactly when its parts are the right ones. */
  lemma DecodeByParts(content: Bytes)
    ensures Decode(content) ==
            if |content| >= 13 && content[..8] == MAGIC && content[8] == VERSION && IsBlob(content[13..])
               && content[9..13] == LittleEndian(|content| - 13)
            then Some(content[13..]) else None
  {
    if |content| >= 13 {
      assert content == content[..8] + [content[8]] + content[9..13] + content[13..];
      if IsBlob(content[13..]) {
        var encoded := Encode(content[13..]);
        assert encoded[..8] == MAGIC && encoded[8] == VERSION && encoded[9..13] == LittleEndian(|content| - 13);
      }
    }
  }

  /** A file open for reading. */
  class OpenFile {
    const content: Bytes
    var position: nat

    ghost predicate Valid()
      reads this
    {
      position <= |content|
    }

    constructor (content: Bytes)
      ensures Valid() && this.content == content && position == 0
    {
      this.content := content;
      position := 0;
    }

    /** Reads `n` bytes, or reports a malformed key file when fewer are left. */
    method ReadExact(n: nat) returns (r: Result<Bytes, CredentialStoreError>)
      requires Valid()
      modifies this
      ensures Valid()
      ensures if old(position) + n <= |content|
              then r == Ok(content[old(position)..old(position) + n]) && position == old(position) + n
              else r == Err(InvalidProtectedKeyFile)
    {
      if position + n > |content| {
        return Err(InvalidProtectedKeyFile);
      }
      r := Ok(content[position..position + n]);
      position := position + n;
    }
  }

  /** Writes the parts of a key file one after the other. */
  method WriteKeyFile(blob: Bytes) returns (r: Result<Bytes, CredentialStoreError>)
    ensures r == if IsBlob(blob) then Ok(Encode(blob)) else Err(InvalidProtectedKeyFile)
  {
    if blob == [] || |blob| > MAX_BLOB_LENGTH {
      return Err(InvalidProtectedKeyFile);
    }
    var file: Bytes := [];
    file := file + MAGIC;
    file := file + [VERSION];
    file := file + LittleEndian(|blob|);
    file := file + blob;
    assert file == Encode(blob);
    return Ok(file);
  }

  /**
   * Reads a key file piece by piece.  The file is absent when `content` is None;
   * `trailingReadFails` is an I/O error while looking for trailing bytes.
   * Without such errors a blob is returned exactly when the content is its encoding.
   */
  method LoadKeyFile(content: Option<Bytes>, trailingReadFails: bool) returns (r: Result<Bytes, CredentialStoreError>)
    ensures content.None? ==> r == Err(IoFailed)
    ensures content.Some? && !trailingReadFails ==>
              r == match Decode(content.value)
                   case Some(blob) => Ok(blob)
                   case None => Err(InvalidProtectedKeyFile)
    ensures content.Some? && trailingReadFails ==> r in {Err(IoFailed), Err(InvalidProtectedKeyFile)}
  {
    hide FromLittleEndian, LittleEndian, Decode;
    DecodeByParts(if content.Some? then content.value else []);
    if content.None? {
      return Err(IoFailed);
    }
    var file := new OpenFile(content.value);
    var magic :- file.ReadExact(8);
    if magic != MAGIC {
      return Err(InvalidProtectedKeyFile);
    }
    var version :- file.ReadExact(1);
    if version[0] != VERSION {
      return Err(InvalidProtectedKeyFile);
    }
    var lengthBytes :- file.ReadExact(4);
    var length := FromLittleEndian(lengthBytes);
    LittleEndianRoundTrip(length, lengthBytes);
    if length == 0 || length > MAX_BLOB_LENGTH {
      WrongLength(content.value, length);
      return Err(InvalidProtectedKeyFile);
    }
    WrongLength(content.value, length);
    var blob :- file.ReadExact(length);
    if trailingReadFails {
      return Err(IoFailed);
    }
    if file.position < |file.content| {
      return Err(InvalidProtectedKeyFile);
    }
    assert blob == content.value[13..];
    return Ok(blob);
  }

  /** A content whose length field is not the number of bytes after it encodes nothing. */
  lemma WrongLength(content: Bytes, length: nat)
    requires |content| >= 13 && length < 0x1_0000_0000 && content[9..13] == LittleEndian(length)
    ensures Decode(content).Some? ==> length == |content| - 13
  {
    var blob := content[13..];
    if IsBlob(blob) && content == Encode(blob) {
      assert content[9..13] == LittleEndian(|blob|);
      LittleEndianRoundTrip(length, content[9..13]);
      LittleEndianRoundTrip(|blob|, content[9..13]);
    }
  }
}

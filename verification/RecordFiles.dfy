/** The two byte loops of the record store (evidence/store.py:406-475): writing a whole artifact to a temporary
    file, and reading a bounded artifact back. */
module RecordFiles {
  import opened Wrappers

  type byte = b: int | 0 <= b < 256
  type Bytes = seq<byte>

  const CHUNK := 64 * 1024

  /** An open regular file. A write may accept fewer bytes than it is given, a read may return fewer than it is
      asked for. `shared` says that others may change the content between two calls. */
  class OpenFile {
    var content: Bytes
    var position: nat
    const shared: bool
    /** Every write accepts at least one byte. */
    const accepting: bool

    constructor (content: Bytes, shared: bool, accepting: bool)
      ensures this.content == content && position == 0 && this.shared == shared && this.accepting == accepting
    {
      this.content, position, this.shared, this.accepting := content, 0, shared, accepting;
    }

    /** Appends as many bytes as it reports. */
    method Write(bytes: Bytes) returns (written: int)
      requires bytes != []
      modifies this`content
      ensures written <= |bytes| && (accepting ==> written > 0)
      ensures content == old(content) + if written <= 0 then [] else bytes[..written]
    {
      written :| written <= |bytes| && (accepting ==> written > 0);
      if written > 0 {
        content := content + bytes[..written];
      }
    }

    /** The next bytes; none only at the end of the file. */
    method Read(limit: nat) returns (chunk: Bytes)
      requires limit > 0
      modifies this
      ensures !shared ==> content == old(content)
      ensures |chunk| <= limit && position == old(position) + |chunk|
      ensures old(position) + |chunk| <= |content| || chunk == []
      ensures chunk != [] ==> chunk == content[old(position)..position]
      ensures chunk == [] <==> old(position) >= |content|
    {
      if shared {
        content := *;
      }
      if position >= |content| {
        return [];
      }
      var n :| 1 <= n <= limit && position + n <= |content|;
      chunk := content[position..position + n];
      position := position + n;
    }
  }

  /** The write loop of _atomic_materialize: on success, which a file that accepts bytes grants, the file holds the
      whole content, and otherwise a proper prefix of it. */
  method WriteAll(file: OpenFile, content: Bytes) returns (ok: bool)
    requires file.content == []
    modifies file`content
    ensures ok <==> file.content == content
    ensures file.content <= content && (file.accepting ==> ok)
  {
    var offset := 0;
    while offset < |content|
      invariant 0 <= offset <= |content| && file.content == content[..offset]
    {
      var written := file.Write(content[offset..]);
      if written <= 0 {
        return false;
      }
      assert content[offset..][..written] == content[offset..offset + written];
      offset := offset + written;
    }
    ok := true;
  }

  datatype Error = TooLarge | Changed

  /** _safe_read_regular_file: whatever others do, the result has the size that was announced, within the ceiling;
      when nobody interferes it is exactly the content. */
  method SafeRead(file: OpenFile, maxBytes: nat) returns (r: Result<Bytes, Error>)
    requires file.position == 0
    modifies file
    ensures r.Success? ==> |r.value| == |old(file.content)| <= maxBytes
    ensures !file.shared ==> r == if |old(file.content)| > maxBytes then Failure(TooLarge)
        else Success(old(file.content))
  {
    var size := |file.content|;
    if size > maxBytes {
      return Failure(TooLarge);
    }
    var data: Bytes, remaining: nat := [], size;
    while remaining > 0
      invariant |data| + remaining == size && file.position == |data|
      invariant !file.shared ==> file.content == old(file.content) && data == file.content[..|data|]
    {
      var chunk := file.Read(if remaining < CHUNK then remaining else CHUNK);
      if chunk == [] {
        assert file.shared;
        break;
      }
      data, remaining := data + chunk, remaining - |chunk|;
    }
    assert !file.shared ==> remaining == 0 && data == old(file.content);
    var extra := file.Read(1);
    if remaining != 0 || extra != [] || |data| != size {
      return Failure(Changed);
    }
    r := Success(data);
  }
}

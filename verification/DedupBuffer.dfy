/** The dedup bio's local buffer, in memory: what is left of a partly written message is never
    refused by it. */
module DedupBuffer {
  import opened Octets
  import opened BioBuffer
  import M = DedupMachine

  /** No buffer yet, or one that is empty and stands at its start. */
  ghost predicate Idle(b: Buffer?)
    reads b, if b == null then {} else {b.data}
  {
    b != null ==> b.Valid() && b.View().contents == [] && b.read == 0
  }

  /** fr_bio_dedup_buffer_save() after the next bio took k octets of the message m: the buffer is
      made large enough, and the write whose result nobody looks at is accepted. */
  method BufferSave(b: Buffer?, m: array<Octet>, k: nat) returns (saved: Buffer, r: int)
    requires Idle(b) && k <= m.Length && (b != null ==> b.data != m)
    modifies b, if b == null then {} else {b.data}
    ensures r == m.Length - k
    ensures saved.Valid() && saved.View().contents == old(m[k..]) && saved.read == 0
    ensures if saved == b then saved.data == old(saved.data) else fresh(saved) && fresh(saved.data)
  {
    if b == null || m.Length > b.data.Length {
      saved := new Buffer(m.Length);
    } else {
      saved := b;
    }
    assert m[k..] == m[k..k + (m.Length - k)];
    r := saved.Write(m, k, m.Length - k);
    assert [] + old(m[k..]) == old(m[k..]);
  }

  /** fr_bio_dedup_buffer_write(): the octets the next bio takes leave the buffer, and an emptied
      one is reset, ready to save the next message. */
  method BufferWrite(b: Buffer, answer: int, ghost s: M.Dedup) returns (rcode: int)
    requires b.Valid() && b.View().contents == s.buffer != []
    modifies b
    ensures b.Valid() && b.data == old(b.data)
    ensures b.View().contents == M.BufferWrite(s, answer).0.buffer && rcode == M.BufferWrite(s, answer).1
    ensures b.View().contents == [] ==> Idle(b)
  {
    var used := b.write - b.read;
    var k := if answer > used then used else answer;
    if k <= 0 {
      return k;
    }
    assert b.data[b.read + k..b.write] == b.data[b.read..b.write][k..];
    b.read := b.read + k;
    if b.write - b.read > 0 {
      return 0;
    }
    b.Reset();
    return k;
  }
}

// The receive buffer and the frame codec on it.
module FrameBuffer {
  import opened Bytes
  import opened Frames

  class Buffer {
    var m_read: nat
    var m_write: nat
    const m_buffer: array<byte>

    ghost predicate Valid()
      reads this, m_buffer
    {
      m_buffer.Length == MAX_BUFFER_SIZE && m_read <= m_write <= MAX_BUFFER_SIZE
    }

    // The unread bytes.
    ghost function Window(): seq<byte>
      requires Valid()
      reads this, m_buffer
    {
      m_buffer[m_read..m_write]
    }

    constructor ()
      ensures Valid() && Window() == [] && m_read == 0 && fresh(m_buffer)
    {
      m_buffer := new byte[MAX_BUFFER_SIZE](_ => 0);
      m_read, m_write := 0, 0;
    }

    method Reset()
      requires Valid()
      modifies this
      ensures Valid() && Window() == [] && m_read == 0
    {
      m_write, m_read := 0, 0;
    }

    // memcpy to the write position; the source does not check that the bytes fit.
    method CopyIn(buf: seq<byte>)
      requires Valid() && m_write + |buf| <= MAX_BUFFER_SIZE
      modifies this`m_write, m_buffer
      ensures Valid() && Window() == old(Window()) + buf
    {
      forall i | 0 <= i < |buf| {
        m_buffer[m_write + i] := buf[i];
      }
      m_write := m_write + |buf|;
    }

    // memmove of the unread bytes to the front.
    method Compact()
      requires Valid()
      modifies this, m_buffer
      ensures Valid() && Window() == old(Window()) && m_read == 0
    {
      forall i | 0 <= i < m_write - m_read {
        m_buffer[i] := m_buffer[m_read + i];
      }
      m_write := m_write - m_read;
      m_read := 0;
    }

    // The unread bytes are kept whether or not the chunk fits; it fits exactly when both together stay
    // below the buffer size, wherever the window stands.
    method Add(buf: seq<byte>) returns (r: int)
      requires Valid()
      modifies this, m_buffer
      ensures Valid()
      ensures r != -1 <==> |old(Window())| + |buf| < MAX_BUFFER_SIZE
      ensures r != -1 ==> r == m_write && Window() == old(Window()) + buf
      ensures r == -1 ==> Window() == old(Window())
    {
      if m_write + |buf| >= MAX_BUFFER_SIZE {
        if m_read == 0 {
          return -1;
        }
        Compact();
      }
      if m_write + |buf| >= MAX_BUFFER_SIZE {
        return -1;
      }
      CopyIn(buf);
      r := m_write;
    }

    // BsonBuffer::parseFromBuffer. A size above the buffer size cannot pass the wait test, so the test
    // that follows it never fires.
    method ParseFromBuffer() returns (outcome: Outcome)
      requires Valid()
      modifies this`m_read
      ensures Valid() && (outcome, Window()) == Parse(old(Window()))
    {
      hide Mask, MaskKey, FromBigEndian;
      ghost var w := Window();
      var available := m_write - m_read;
      if available < HEAD_LENGTH {
        return Wait;
      }
      var head := m_buffer[m_read..m_read + HEAD_LENGTH];
      assert head == Window()[..HEAD_LENGTH];
      assert head[..4] == Window()[..4] && head[4..6] == Window()[4..6] && head[6..10] == Window()[6..10];
      if head[..4] != VERIFY_KEY {
        return InvalidSync;
      }
      var version, size := FromBigEndian(head[4..6]), FromBigEndian(head[6..10]);
      if available - HEAD_LENGTH < size {
        return Wait;
      }
      m_read := m_read + HEAD_LENGTH;
      assert Window() == w[HEAD_LENGTH..];
      if version == 0 {
        return DivisionFault;
      }
      var src := m_buffer[m_read..m_read + size];
      assert src == Window()[..size] == w[HEAD_LENGTH..][..size] == w[HEAD_LENGTH..HEAD_LENGTH + size];
      var body := MaskLoop(src, MaskKey(version, size));
      m_read := m_read + size;
      assert Window() == w[HEAD_LENGTH + size..];
      outcome := Body(body[..]);
    }
  }

  // BsonBuffer::serializeToBuffer: the bytes are taken from the start of the buffer, as many as are unread.
  method SerializeToBuffer(buf: Buffer)
    requires buf.Valid() && buf.m_write - buf.m_read + HEAD_LENGTH <= MAX_BUFFER_SIZE
    modifies buf, buf.m_buffer
    ensures buf.Valid() && buf.m_read == 0
    ensures buf.Window() == Frame(old(buf.m_buffer[..buf.m_write - buf.m_read]))
    ensures old(buf.m_read) == 0 ==> buf.Window() == Frame(old(buf.Window()))
  {
    hide Mask, MaskKey, Header;
    var size := buf.m_write - buf.m_read;
    var src := buf.m_buffer[..size];
    var masked := MaskLoop(src, MaskKey(DEFAULT_VERSION, size));
    var frame := Header(size) + masked[..];
    buf.Reset();
    buf.CopyIn(frame);
  }

  // A receive loop: chunks and parses in the order of events.
  method Receive(buf: Buffer, events: seq<Event>) returns (bodies: seq<seq<byte>>)
    requires buf.Valid() && buf.Window() == []
    modifies buf, buf.m_buffer
    ensures buf.Valid() && buf.Window() == Run(FRESH, events).window && bodies == Run(FRESH, events).bodies
  {
    hide Parse;
    bodies := [];
    var i := 0;
    while i < |events|
      invariant 0 <= i <= |events| && buf.Valid()
      invariant buf.Window() == Run(FRESH, events[..i]).window && bodies == Run(FRESH, events[..i]).bodies
    {
      assert events[..i + 1][..i] == events[..i];
      match events[i] {
        case Add(chunk) => var _ := buf.Add(chunk);
        case TryParse =>
          var outcome := buf.ParseFromBuffer();
          if outcome.Body? {
            bodies := bodies + [outcome.body];
          }
      }
      i := i + 1;
    }
    assert events[..|events|] == events;
  }
}

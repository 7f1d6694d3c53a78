/** The streaming FLV parser as the object that is fed: its fields and both its buffers are updated in place. */
module FlvInput {
  import opened Bytes
  import opened FlvParser

  class ParserObject {
    var state: Phase
    var count: nat
    var want: nat
    const buffer: array<byte>
    var header: Header
    var tag: Tag
    var audio: AudioHead
    var video: VideoHead
    var body: array<byte>
    var log: seq<Event>

    ghost predicate Valid()
      reads this
    {
      buffer.Length == 32 && buffer != body && count <= if state.Body? then body.Length else 32
    }

    ghost function Value(): (p: Parser)
      requires Valid()
      reads this, buffer, body
    {
      Parser(state, if state.Body? then body[..count] else buffer[..count], want, header, tag, audio, video)
    }

    ghost predicate Ready()
      reads this, buffer, body
    {
      Valid() && Sane(Value()) && (state.Body? ==> body.Length == want)
    }

    constructor ()
      ensures Ready() && Value() == FRESH && log == [] && fresh(buffer) && fresh(body)
    {
      state, count, want, log := Head, 0, 0, [];
      header, tag := FRESH.header, FRESH.tag;
      audio, video := FRESH.audio, FRESH.video;
      var small: array<byte> := new byte[32](_ => 0);
      buffer := small;
      var none: array<byte> := new byte[0];
      body := none;
    }

    // Copy into the small buffer until it holds `size` bytes or the data is used up.
    method Append(data: bytes, size: nat) returns (n: nat)
      requires Valid() && !state.Body?
      modifies this`count, buffer
      ensures old(count) > size || size > 32 ==> n == |data| && count == size && buffer[..] == old(buffer[..])
      ensures old(count) <= size <= 32 ==>
        && n == (if old(count) + |data| >= size then size - old(count) else |data|)
        && count == old(count) + n && buffer[..count] == old(buffer[..count]) + data[..n]
    {
      if count > size || size > 32 {
        count := size;
        return |data|;
      }
      n := if count + |data| >= size then size - count else |data|;
      if n > 0 {
        forall i | 0 <= i < n { buffer[count + i] := data[i]; }
        assert buffer[..count + n] == old(buffer[..count]) + data[..n];
        count := count + n;
      }
    }

    method InputHead(u: User, data: bytes) returns (n: nat, r: int)
      requires Ready() && state.Head? && data != []
      modifies this`state, this`count, this`header, buffer
      ensures Valid() && !state.Body? && n == Taken(old(Value()), data)
      ensures Outcome(Value(), log, r) == Step(u, old(Value()), data, log)
    {
      n := Append(data, HEADER_SIZE);
      r := 0;
      if count == HEADER_SIZE {
        header := ReadHeader(header, buffer[..count]);
        if header.offset < HEADER_SIZE || header.offset > buffer.Length { return n, -1; }
        header := header.(offset := header.offset - HEADER_SIZE);
        state := if header.offset > 0 then HeadOffset else PreviousSize;
        count := 0;
      }
    }

    method InputSmall(u: User, data: bytes) returns (n: nat, r: int)
      requires Ready() && (state.HeadOffset? || state.PreviousSize? || state.TagHead?) && data != []
      modifies this`state, this`count, this`want, this`tag, buffer
      ensures Valid() && !state.Body? && n == Taken(old(Value()), data)
      ensures Outcome(Value(), log, r) == Step(u, old(Value()), data, log)
    {
      r := 0;
      if state.HeadOffset? {
        n := Append(data, header.offset);
        if count == header.offset { count, state := 0, PreviousSize; }
      } else if state.PreviousSize? {
        n := Append(data, TAG_SIZE);
        if count == TAG_SIZE { count, state := 0, TagHead; }
      } else {
        n := Append(data, TAG_HEADER_SIZE);
        if count == TAG_HEADER_SIZE {
          tag := ReadTag(tag, buffer[..count]);
          count, want, state := 0, 0, Codec;
        }
      }
    }

    method InputCodec(u: User, data: bytes) returns (n: nat, r: int)
      requires Ready() && state.Codec? && data != []
      modifies this`state, this`count, this`want, buffer
      ensures Valid() && !state.Body? && n == Taken(old(Value()), data)
      ensures Outcome(Value(), log, r) == Step(u, old(Value()), data, log)
    {
      n, r := 0, 0;
      if tag.kind == TYPE_AUDIO {
        n := Append(data, 1);
        want := if AudioHasPacket(buffer[0] / 16 * 16) then 2 else 1;
      } else if tag.kind == TYPE_VIDEO {
        n := Append(data, 1);
        want := if VideoHasPacket(buffer[0] % 16) then 5 else 1;
      } else if tag.kind == TYPE_SCRIPT {
        want := 0;
      } else {
        return 0, -1;
      }
      state := Extra;
    }

    // All header bytes in front of the payload are there.
    method OpenBody(u: User) returns (r: int)
      requires Valid() && state.Extra? && Sane(Value()) && count == want
      modifies this`state, this`count, this`want, this`audio, this`video, this`body
      ensures Valid() && state.Body? && (r == 0 ==> body.Length == want)
      ensures body == old(body) || fresh(body)
      ensures Outcome(Value(), log, r) == Finish(u, old(Value()), log)
    {
      r := 0;
      if tag.kind == TYPE_AUDIO {
        audio := ReadAudioHead(audio, buffer[..count]);
      } else if tag.kind == TYPE_VIDEO {
        video := ReadVideoHead(video, buffer[..count]);
      }
      count, state := 0, Body;
      want := (tag.size - want) % POW64;
      if !u.alloc(want) { return -1; }
      var space: array<byte> := new byte[want];
      body := space;
    }

    method InputExtra(u: User, data: bytes) returns (n: nat, r: int)
      requires Ready() && state.Extra? && data != []
      modifies this`state, this`count, this`want, this`audio, this`video, this`body, buffer
      ensures Valid() && n == Taken(old(Value()), data) && (state.Body? && r == 0 ==> body.Length == want)
      ensures body == old(body) || fresh(body)
      ensures Outcome(Value(), log, r) == Step(u, old(Value()), data, log)
    {
      hide Finish;
      r := 0;
      n := Append(data, want);
      if count == want { r := OpenBody(u); }
    }

    method InputBody(u: User, data: bytes) returns (n: nat, r: int)
      requires Ready() && state.Body? && data != []
      modifies this`state, this`count, this`log, body
      ensures Valid() && n == Taken(old(Value()), data) && (state.Body? ==> body.Length == want)
      ensures Outcome(Value(), log, r) == Step(u, old(Value()), data, old(log))
    {
      r := 0;
      n := if count + |data| >= want then want - count else |data|;
      forall i | 0 <= i < n { body[count + i] := data[i]; }
      assert body[..count + n] == old(body[..count]) + data[..n];
      count := count + n;
      if count == want {
        assert body[..] == body[..want];
        var answer := DispatchTag(Parser(Body, body[..], want, header, tag, audio, video), body[..]);
        count, state := 0, PreviousSize;
        match answer
        case Done(code) => r := code;
        case Call(e) =>
          log := log + [e];
          r := u.handler(log);
      }
    }

    method InputOnce(u: User, data: bytes) returns (n: nat, r: int)
      requires Ready() && data != []
      modifies this, buffer, body
      ensures Valid() && n == Taken(old(Value()), data) && (state.Body? && r == 0 ==> body.Length == want)
      ensures body == old(body) || fresh(body)
      ensures Outcome(Value(), log, r) == Step(u, old(Value()), data, old(log))
    {
      hide Step, Sane, Taken;
      match state
      case Head => n, r := InputHead(u, data);
      case Codec => n, r := InputCodec(u, data);
      case Extra => n, r := InputExtra(u, data);
      case Body => n, r := InputBody(u, data);
      case _ => n, r := InputSmall(u, data);
    }

    // Feeding data leaves the callbacks, the answer and the parser that the specification gives.
    method Input(u: User, data: bytes) returns (r: int)
      requires Ready()
      modifies this, buffer, body
      ensures Valid() && (r == 0 ==> Ready()) && (body == old(body) || fresh(body))
      ensures Outcome(Value(), log, r) == Feed(u, old(Value()), data, old(log))
    {
      hide Step, Sane, Taken;
      var pos := 0;
      r := 0;
      while pos < |data| && r == 0
        invariant pos <= |data| && Valid() && (r == 0 ==> Ready()) && (body == old(body) || fresh(body))
        invariant (if r != 0 then Outcome(Value(), log, r) else Feed(u, Value(), data[pos..], log))
               == Feed(u, old(Value()), data, old(log))
        decreases r == 0, |data| - pos, Rank(state)
      {
        ghost var p, before := Value(), log;
        var n;
        StepSane(u, p, data[pos..], log);
        TakenBound(p, data[pos..]);
        n, r := InputOnce(u, data[pos..]);
        assert data[pos..][n..] == data[pos + n..];
        pos := pos + n;
      }
    }
  }
}

/** File transfers: the receive and send loops, over a network and a disk that take and give bytes
    in pieces of any size, may fail, and may run out of room. */
module DataIo {
  import opened Bytes
  import opened Ascii
  import PrivSock

  const DATA_BUF := 65536   // VSFTP_DATA_BUFSIZE

  function Min(a: nat, b: nat): nat {
    if a < b then a else b
  }

  /** As much of `s` as there is room for: a part at its front that fills the room, or all of it. */
  function Fitting(s: Str, room: nat): (r: Str)
    ensures r <= s && |r| <= room && (|r| == room || r == s)
    ensures |s| <= room ==> r == s
  {
    s[..Min(|s|, room)]
  }

  /** What is read from: the bytes still to come, how many each read gives at most, and whether the
      end is an error. */
  class Source {
    var data: Str
    var pieces: seq<nat>
    const broken: bool

    constructor (data: Str, pieces: seq<nat>, broken: bool)
      ensures this.data == data && this.broken == broken
    {
      this.data, this.pieces, this.broken := data, pieces, broken;
    }

    /** `read`: at least one byte while there are any, then 0 or an error for ever. */
    method Read(buf: array<Byte>, at: nat, max: nat) returns (n: int)
      requires 0 < max && at + max <= buf.Length
      modifies this, buf
      ensures old(data) == [] ==> n == (if broken then -1 else 0) && data == []
      ensures old(data) != [] ==> 0 < n <= max && n <= |old(data)|
      ensures old(data) != [] ==> old(data) == buf[at..at + n] + data
    {
      if data == [] {
        return if broken then -1 else 0;
      }
      n := Min(|data|, if pieces == [] then max else Min(max, pieces[0] + 1));
      pieces := if pieces == [] then [] else pieces[1..];
      ghost var was := data;
      assert was == was[..n] + was[n..];
      forall i | 0 <= i < n {
        buf[at + i] := data[i];
      }
      assert buf[at..at + n] == was[..n];
      data := data[n..];
    }
  }

  /** What is written to: the bytes taken so far, how many more there is room for, how many each
      write takes at most, and whether a full sink answers with an error or with nothing. */
  class Sink {
    var taken: Str
    var room: nat
    var pieces: seq<nat>
    const fails: bool

    constructor (room: nat, pieces: seq<nat>, fails: bool)
      ensures taken == [] && this.room == room && this.fails == fails
    {
      taken, this.room, this.pieces, this.fails := [], room, pieces, fails;
    }

    method Write(data: Str) returns (n: int)
      modifies this
      ensures data == [] ==> n == 0 && taken == old(taken) && room == old(room)
      ensures data != [] && old(room) == 0 ==> n == (if fails then -1 else 0) && taken == old(taken) && room == 0
      ensures data != [] && old(room) > 0 ==> 0 < n <= |data| && n <= old(room)
      ensures data != [] && old(room) > 0 ==> taken == old(taken) + data[..n] && room == old(room) - n
    {
      if data == [] {
        return 0;
      } else if room == 0 {
        return if fails then -1 else 0;
      }
      n := Min(Min(|data|, room), if pieces == [] then |data| else pieces[0] + 1);
      pieces := if pieces == [] then [] else pieces[1..];
      taken, room := taken + data[..n], room - n;
    }

    /** `vsf_sysutil_write_loop`: however the writes are cut, all of the data if there is room for
        it, and otherwise as much as there is room for. */
    method WriteLoop(data: Str) returns (ret: int)
      modifies this
      ensures taken == old(taken) + Fitting(data, old(room))
      ensures room == old(room) - Min(|data|, old(room))
      ensures ret == if |data| <= old(room) then |data| else if fails then -1 else old(room)
    {
      var written := 0;
      while true
        invariant 0 <= written <= |data| && written <= old(room) && (written < |data| || data == [])
        invariant taken == old(taken) + data[..written] && room == old(room) - written
        decreases |data| - written
      {
        var n := Write(data[written..]);
        if n < 0 {
          return n;
        } else if n == 0 {
          return written;
        }
        assert data[..written] + data[written..][..n] == data[..written + n];
        written := written + n;
        if written == |data| {
          return written;
        }
      }
    }

    /** `ftp_write_data`: to the SSL slave a piece goes as one string, which must not be longer than the
        slave takes. */
    method WriteData(data: Str) returns (ret: int)
      requires PrivSock.Sized(PrivSock.SslWrite(data))
      modifies this
      ensures taken == old(taken) + Fitting(data, old(room))
      ensures room == old(room) - Min(|data|, old(room))
      ensures ret == if |data| <= old(room) then |data| else if fails then -1 else old(room)
    {
      ret := WriteLoop(data);
    }
  }

  /** `get_chunk_size`. */
  function ChunkSize(tunable: nat): (r: nat)
    ensures 0 < r <= DATA_BUF && (4096 <= tunable <= DATA_BUF ==> r == tunable)
  {
    if 0 < tunable < DATA_BUF then (if tunable < 4096 then 4096 else tunable) else DATA_BUF
  }

  // ----- receiving

  /** What is on disk once the whole stream is in, or once it broke off after these bytes. */
  function Stored(data: Str, isAscii: bool, ended: bool): Str {
    if !isAscii then data else if ended then AsciiToBin(data) else Settled(data)
  }

  function LessCr(s: Str): Str {
    if EndsInCr(s, false) then s[..|s| - 1] else s
  }

  /** In binary mode the stream itself, in ASCII mode its conversion; and when the network fails, that of
      the stream without a CR at its end. */
  lemma StoredIs(data: Str, isAscii: bool, ended: bool)
    ensures !isAscii ==> Stored(data, isAscii, ended) == data
    ensures isAscii && ended ==> Stored(data, isAscii, ended) == AsciiToBin(data)
    ensures isAscii && !ended ==> Stored(data, isAscii, ended) == AsciiToBin(LessCr(data))
  {
    SettledThenHeld(data);
    if EndsInCr(data, false) {
      var x := LessCr(data);
      assert data == x + [CR];
      SettledSplits(x, [CR]);
      SettledThenHeld(x);
    }
  }

  predicate IsPrefix(a: Str, b: Str) {
    |a| <= |b| && a == b[..|a|]
  }

  /** What is on disk after some of the stream stays on disk. */
  lemma StoredGrows(sofar: Str, more: Str, isAscii: bool)
    ensures IsPrefix(Stored(sofar, isAscii, false), Stored(sofar + more, isAscii, false))
    ensures IsPrefix(Stored(sofar, isAscii, false), Stored(sofar + more, isAscii, true))
  {
    if more == [] {
      assert sofar + more == sofar;
      SettledThenHeld(sofar);
    } else {
      SettledSplits(sofar, more);
    }
  }

  /** What one turn of the loop hands to the disk. */
  function Handed(chunk: Str, isAscii: bool, prevCr: bool): Str {
    if isAscii then Flushed(chunk, prevCr) else chunk
  }

  /** It is what the longer input adds. */
  lemma TurnAdds(got: Str, chunk: Str, isAscii: bool)
    ensures Stored(got + chunk, isAscii, chunk == []) ==
            Stored(got, isAscii, false) + Handed(chunk, isAscii, EndsInCr(got, false))
    ensures chunk != [] ==> EndsInCr(got + chunk, false) == EndsInCr(chunk, false)
  {
    ReceiveStep(got, chunk);
    assert chunk == [] ==> got + chunk == got;
  }

  /** When the disk fills up in some turn, what is on it is all that fits of the whole. */
  lemma FullDisk(got: Str, chunk: Str, rest: Str, isAscii: bool, ended: bool, base: Str, space: nat)
    requires chunk == [] ==> rest == [] && ended
    requires |Stored(got, isAscii, false)| <= space
    requires |Handed(chunk, isAscii, EndsInCr(got, false))| > space - |Stored(got, isAscii, false)|
    ensures var before, all := Stored(got, isAscii, false), Stored(got + chunk + rest, isAscii, ended);
            && |all| > space
            && base + before + Fitting(Handed(chunk, isAscii, EndsInCr(got, false)), space - |before|) ==
               base + Fitting(all, space)
  {
    var before, all := Stored(got, isAscii, false), Stored(got + chunk + rest, isAscii, ended);
    var out := Handed(chunk, isAscii, EndsInCr(got, false));
    TurnAdds(got, chunk, isAscii);
    if chunk == [] {
      assert got + chunk + rest == got + chunk;
    } else {
      StoredGrows(got + chunk, rest, isAscii);
    }
    assert before + out == all[..|before + out|];
    assert all[..space] == (before + out)[..space] == before + out[..space - |before|];
    Assoc(base, before, out[..space - |before|]);
  }

  /** The second half of a turn: convert the buffer in place and write it out. */
  method StoreChunk(disk: Sink, buf: array<Byte>, n: nat, isAscii: bool, prevCr: bool)
      returns (ok: bool, lastWasCr: bool)
    requires n + 1 <= buf.Length
    modifies disk, buf
    ensures var out := Handed(old(buf[1..n + 1]), isAscii, prevCr);
            && ok == (|out| <= old(disk.room))
            && disk.taken == old(disk.taken) + Fitting(out, old(disk.room))
            && (ok ==> disk.room == old(disk.room) - |out|)
    ensures lastWasCr == if isAscii then EndsInCr(old(buf[1..n + 1]), false) else prevCr
  {
    var out;
    if isAscii {
      var start, stored;
      start, stored, lastWasCr := ConvertToBin(buf, n, prevCr);
      out := buf[start..start + stored];
    } else {
      out, lastWasCr := buf[1..n + 1], prevCr;
    }
    var wrote := disk.WriteLoop(out);
    ok := wrote == |out|;
  }

  lemma TurnStored(got: Str, chunk: Str, rest: Str, isAscii: bool, ended: bool, base: Str, room: nat)
    requires chunk == [] ==> rest == [] && ended
    ensures var prevCr := isAscii && EndsInCr(got, false);
            var before, now := Stored(got, isAscii, false), Stored(got + chunk, isAscii, chunk == []);
            var out := Handed(chunk, isAscii, prevCr);
            && |now| == |before| + |out|
            && (chunk != [] ==> EndsInCr(chunk, false) == EndsInCr(got + chunk, false))
            && if |out| <= room then base + before + Fitting(out, room) == base + now
               else var all := Stored(got + chunk + rest, isAscii, ended);
                    && |all| > |before| + room
                    && base + before + Fitting(out, room) == base + Fitting(all, |before| + room)
  {
    var out := Handed(chunk, isAscii, EndsInCr(got, false));
    TurnAdds(got, chunk, isAscii);
    Assoc(base, Stored(got, isAscii, false), out);
    if |out| > room {
      FullDisk(got, chunk, rest, isAscii, ended, base, |Stored(got, isAscii, false)| + room);
    }
  }

  /** A turn after `got` with `rest` to come: the disk has what the stream so far stores, or all that fits
      of the whole. */
  method StoreTurn(disk: Sink, buf: array<Byte>, n: nat, isAscii: bool, prevCr: bool,
                   ghost got: Str, ghost rest: Str, ghost ended: bool, ghost base: Str)
      returns (ok: bool, lastWasCr: bool)
    requires n + 1 <= buf.Length && (n == 0 ==> rest == [] && ended)
    requires prevCr == (isAscii && EndsInCr(got, false)) && disk.taken == base + Stored(got, isAscii, false)
    modifies disk, buf
    ensures var chunk, space := old(buf[1..n + 1]), old(disk.room) + |Stored(got, isAscii, false)|;
            var now := Stored(got + chunk, isAscii, n == 0);
            if ok then && |now| <= space && disk.room == space - |now| && disk.taken == base + now
                       && lastWasCr == (isAscii && n != 0 && EndsInCr(got + chunk, false))
            else var all := Stored(got + chunk + rest, isAscii, ended);
                 |all| > space && disk.taken == base + Fitting(all, space)
  {
    TurnStored(got, buf[1..n + 1], rest, isAscii, ended, base, disk.room);
    ok, lastWasCr := StoreChunk(disk, buf, n, isAscii, prevCr);
  }

  /** The loop of `do_file_recv`. */
  method RecvLoop(net: Source, disk: Sink, isAscii: bool, tunable: nat, buf: array<Byte>)
      returns (ret: int, transferred: nat)
    requires buf.Length == DATA_BUF + 1
    modifies net, disk, buf
    ensures var all := Stored(old(net.data), isAscii, !net.broken);
            && disk.taken == old(disk.taken) + Fitting(all, old(disk.room))
            && ret == (if |all| > old(disk.room) then -1 else if net.broken then -2 else 0)
    ensures ret == -1 ==> transferred <= |old(net.data)|
    ensures ret != -1 ==> transferred == |old(net.data)|
  {
    ghost var input, base, space := net.data, disk.taken, disk.room;
    var chunkSize, prevCr := ChunkSize(tunable), false;
    ghost var got, flushed, stored: Str := [], false, [];
    transferred := 0;
    while true
      invariant input == got + net.data && transferred == |got|
      invariant flushed ==> isAscii && net.data == [] && !net.broken
      invariant prevCr == (isAscii && !flushed && EndsInCr(got, false))
      invariant stored == Stored(got, isAscii, flushed)
      invariant |stored| <= space && disk.taken == base + stored && disk.room == space - |stored|
      decreases |net.data|, prevCr
    {
      var n := net.Read(buf, 1, chunkSize);
      if n < 0 {
        assert got == input;
        return -2, transferred;
      } else if n == 0 && !prevCr {
        assert got == input;
        SettledThenHeld(got);
        return 0, transferred;
      }
      transferred := transferred + n;
      ghost var chunk := buf[1..n + 1];
      assert input == got + chunk + net.data;
      var ok;
      ok, prevCr := StoreTurn(disk, buf, n, isAscii, prevCr, got, net.data, !net.broken, base);
      if !ok {
        return -1, transferred;
      }
      flushed := n == 0;
      got := got + chunk;
      stored := Stored(got, isAscii, flushed);
    }
  }

  /** `do_file_recv`: 0 when all is stored, -1 when the disk failed, -2 when the network did. */
  method FileRecv(net: Source, disk: Sink, isAscii: bool, tunable: nat, buf: array<Byte>)
      returns (ret: int, transferred: nat)
    requires buf.Length == DATA_BUF + 1
    modifies net, disk, buf
    ensures var all := if !isAscii then old(net.data)
                       else AsciiToBin(if net.broken then LessCr(old(net.data)) else old(net.data));
            && disk.taken == old(disk.taken) + Fitting(all, old(disk.room))
            && (ret == -1 <==> |all| > old(disk.room)) && (ret == -2 <==> |all| <= old(disk.room) && net.broken)
            && (ret == 0 <==> |all| <= old(disk.room) && !net.broken)
    ensures ret == -1 ==> transferred <= |old(net.data)|
    ensures ret != -1 ==> transferred == |old(net.data)|
  {
    StoredIs(net.data, isAscii, !net.broken);
    ret, transferred := RecvLoop(net, disk, isAscii, tunable, buf);
  }

  // ----- sending

  function Outgoing(data: Str, isAscii: bool): Str {
    if isAscii then BinToAscii(data, false) else data
  }

  function Converted(chunk: Str, isAscii: bool, prevCr: bool): (r: Str)
    ensures |r| <= 2 * |chunk|
  {
    if isAscii then BinToAscii(chunk, prevCr) else chunk
  }

  lemma SendAdds(got: Str, chunk: Str, isAscii: bool)
    ensures Outgoing(got + chunk, isAscii) ==
            Outgoing(got, isAscii) + Converted(chunk, isAscii, EndsInCr(got, false))
    ensures chunk != [] ==> EndsInCr(got + chunk, false) == EndsInCr(chunk, EndsInCr(got, false))
  {
    SendSplits(got, chunk, false);
  }

  /** When the peer stops taking bytes in some turn, it has all that fit of the whole. */
  lemma FullPeer(got: Str, chunk: Str, rest: Str, isAscii: bool, base: Str, space: nat)
    requires |Outgoing(got, isAscii)| <= space
    requires |Converted(chunk, isAscii, EndsInCr(got, false))| > space - |Outgoing(got, isAscii)|
    ensures var before, all := Outgoing(got, isAscii), Outgoing(got + chunk + rest, isAscii);
            && |all| > space
            && base + before + Fitting(Converted(chunk, isAscii, EndsInCr(got, false)), space - |before|) ==
               base + Fitting(all, space)
  {
    var before, all := Outgoing(got, isAscii), Outgoing(got + chunk + rest, isAscii);
    var out := Converted(chunk, isAscii, EndsInCr(got, false));
    SendAdds(got, chunk, isAscii);
    SendAdds(got + chunk, rest, isAscii);
    assert before + out == all[..|before + out|];
    assert all[..space] == (before + out)[..space] == before + out[..space - |before|];
    Assoc(base, before, out[..space - |before|]);
  }

  /** The second half of a turn.  Twice the read buffer is just what the SSL slave takes in one string. */
  method SendChunk(net: Sink, readBuf: array<Byte>, asciiBuf: array<Byte>, n: nat, isAscii: bool, prevCr: bool)
      returns (wrote: int, toWrite: nat, lastWasCr: bool)
    requires n <= DATA_BUF <= readBuf.Length && 2 * DATA_BUF <= asciiBuf.Length && readBuf != asciiBuf
    modifies net, asciiBuf
    ensures var out := Converted(readBuf[..n], isAscii, prevCr);
            && toWrite == |out|
            && wrote == (if toWrite <= old(net.room) then toWrite else if net.fails then -1 else old(net.room))
            && net.taken == old(net.taken) + Fitting(out, old(net.room))
            && (wrote == toWrite ==> net.room == old(net.room) - toWrite)
    ensures lastWasCr == if isAscii then EndsInCr(readBuf[..n], prevCr) else prevCr
  {
    if isAscii {
      toWrite, lastWasCr := ConvertToAscii(readBuf, asciiBuf, n, prevCr);
      wrote := net.WriteData(asciiBuf[..toWrite]);
    } else {
      toWrite, lastWasCr := n, prevCr;
      wrote := net.WriteData(readBuf[..toWrite]);
    }
  }

  lemma TurnSent(got: Str, chunk: Str, rest: Str, isAscii: bool, base: Str, room: nat)
    requires chunk != []
    ensures var prevCr := isAscii && EndsInCr(got, false);
            var before, now := Outgoing(got, isAscii), Outgoing(got + chunk, isAscii);
            var out := Converted(chunk, isAscii, prevCr);
            && |now| == |before| + |out|
            && (isAscii ==> EndsInCr(chunk, prevCr) == EndsInCr(got + chunk, false))
            && if |out| <= room then base + before + Fitting(out, room) == base + now
               else var all := Outgoing(got + chunk + rest, isAscii);
                    && |all| > |before| + room
                    && base + before + Fitting(out, room) == base + Fitting(all, |before| + room)
  {
    var out := Converted(chunk, isAscii, EndsInCr(got, false));
    SendAdds(got, chunk, isAscii);
    Assoc(base, Outgoing(got, isAscii), out);
    if |out| > room {
      FullPeer(got, chunk, rest, isAscii, base, |Outgoing(got, isAscii)| + room);
    }
  }

  /** A turn after `got` with `rest` to come: the peer has the whole so far, or all that fits of it. */
  method SendTurn(net: Sink, readBuf: array<Byte>, asciiBuf: array<Byte>, n: nat, isAscii: bool, prevCr: bool,
                  ghost got: Str, ghost rest: Str, ghost base: Str)
      returns (ok: bool, wrote: nat, lastWasCr: bool)
    requires 0 < n <= DATA_BUF <= readBuf.Length && 2 * DATA_BUF <= asciiBuf.Length && readBuf != asciiBuf
    requires prevCr == (isAscii && EndsInCr(got, false)) && net.taken == base + Outgoing(got, isAscii)
    modifies net, asciiBuf
    ensures var now, space := Outgoing(got + readBuf[..n], isAscii), old(net.room) + |Outgoing(got, isAscii)|;
            if ok then && |now| <= space && net.room == space - |now| && net.taken == base + now
                       && wrote == |now| - |Outgoing(got, isAscii)|
                       && lastWasCr == (isAscii && EndsInCr(got + readBuf[..n], false))
            else var all := Outgoing(got + readBuf[..n] + rest, isAscii);
                 && |all| > space && net.taken == base + Fitting(all, space)
                 && wrote == if net.fails then 0 else old(net.room)
  {
    TurnSent(got, readBuf[..n], rest, isAscii, base, net.room);
    var result, toWrite;
    result, toWrite, lastWasCr := SendChunk(net, readBuf, asciiBuf, n, isAscii, prevCr);
    ok := result == toWrite;
    wrote := if result >= 0 then result else 0;
  }

  /** `do_file_send_rwloop`: 0 when all is sent, -1 when the file could not be read, -2 when the peer
      stopped taking bytes. */
  method FileSend(file: Source, net: Sink, isAscii: bool, tunable: nat, readBuf: array<Byte>, asciiBuf: array<Byte>)
      returns (ret: int, transferred: nat)
    requires DATA_BUF <= readBuf.Length && 2 * DATA_BUF <= asciiBuf.Length && readBuf != asciiBuf
    modifies file, net, readBuf, asciiBuf
    ensures var all := if isAscii then BinToAscii(old(file.data), false) else old(file.data);
            && net.taken == old(net.taken) + Fitting(all, old(net.room))
            && (ret == -2 <==> |all| > old(net.room)) && (ret == -1 <==> |all| <= old(net.room) && file.broken)
            && (ret == 0 <==> |all| <= old(net.room) && !file.broken)
            && (ret != -2 ==> transferred == |all|)
    ensures var all := Outgoing(old(file.data), isAscii);
            && net.taken == old(net.taken) + Fitting(all, old(net.room))
            && ret == (if |all| > old(net.room) then -2 else if file.broken then -1 else 0)
            && (ret != -2 ==> transferred == |all|)
    ensures ret == -2 ==> if net.fails then transferred <= old(net.room) else transferred == old(net.room)
  {
    ghost var input, base, space := file.data, net.taken, net.room;
    var chunkSize, prevCr := ChunkSize(tunable), false;
    ghost var got := [];
    transferred := 0;
    while true
      invariant input == got + file.data
      invariant prevCr == (isAscii && EndsInCr(got, false))
      invariant transferred == |Outgoing(got, isAscii)| <= space
      invariant net.taken == base + Outgoing(got, isAscii)
      invariant net.room == space - transferred
      decreases |file.data|
    {
      var n := file.Read(readBuf, 0, chunkSize);
      if n < 0 {
        assert got == input;
        return -1, transferred;
      } else if n == 0 {
        assert got == input;
        return 0, transferred;
      }
      ghost var chunk := readBuf[..n];
      assert input == got + chunk + file.data;
      var ok, wrote;
      ok, wrote, prevCr := SendTurn(net, readBuf, asciiBuf, n, isAscii, prevCr, got, file.data, base);
      transferred := transferred + wrote;
      if !ok {
        return -2, transferred;
      }
      got := got + chunk;
    }
  }

  // ----- directory listings

  const DIR_BUF := 16384   // VSFTP_DIR_BUFSIZE

  lemma {:induction false} ConcatSplits(a: seq<Str>, b: seq<Str>)
    ensures Concat(a + b) == Concat(a) + Concat(b)
  {
    if a == [] {
      assert a + b == b;
    } else {
      ConcatSplits(a[1..], b);
      assert (a + b)[1..] == a[1..] + b;
      Assoc(a[0], Concat(a[1..]), Concat(b));
    }
  }

  lemma ConcatPush(a: seq<Str>, x: Str)
    ensures Concat(a + [x]) == Concat(a) + x
  {
    ConcatSplits(a, [x]);
    assert Concat([x]) == x + Concat([]);
  }

  /** No piece is empty, which the string writer calls a bug, and none is longer than the buffer
      unless it is one line. */
  predicate Piece(p: Str, lines: seq<Str>) {
    p != [] && (|p| <= DIR_BUF || p in lines)
  }

  lemma NextLine(lines: seq<Str>, i: nat, out: Str, buf: Str)
    requires i < |lines| && Concat(lines[..i]) == out + buf
    ensures Concat(lines[..i + 1]) == out + (buf + lines[i])
  {
    assert lines[..i + 1] == lines[..i] + [lines[i]];
    ConcatPush(lines[..i], lines[i]);
    Assoc(out, buf, lines[i]);
  }

  /** When a piece does not fit, what went out is all that fits of the whole. */
  lemma FullList(lines: seq<Str>, i: nat, out: Str, buf: Str, base: Str, space: nat)
    requires i <= |lines| && Concat(lines[..i]) == out + buf && |out| <= space < |out| + |buf|
    ensures |Concat(lines)| > space
    ensures base + out + Fitting(buf, space - |out|) == base + Fitting(Concat(lines), space)
  {
    assert lines == lines[..i] + lines[i..];
    ConcatSplits(lines[..i], lines[i..]);
    assert Concat(lines)[..space] == out + buf[..space - |out|];
    Assoc(base, out, buf[..space - |out|]);
  }

  /** `write_dir_list`: the lines go out in order, put together into pieces. */
  method WriteDirList(lines: seq<Str>, net: Sink) returns (retval: int, ghost pieces: seq<Str>)
    requires forall i | 0 <= i < |lines| :: lines[i] != []
    modifies net
    ensures net.taken == old(net.taken) + Fitting(Concat(lines), old(net.room))
    ensures retval == if |Concat(lines)| <= old(net.room) then 0 else 1
    ensures retval == 0 ==> Concat(pieces) == Concat(lines)
    ensures forall k | 0 <= k < |pieces| :: Piece(pieces[k], lines)
  {
    ghost var base, space, out := net.taken, net.room, [];
    var buf: Str := [];
    retval, pieces := 0, [];
    for i := 0 to |lines|
      invariant Concat(lines[..i]) == out + buf && out == Concat(pieces)
      invariant buf != [] ==> 0 < i < |lines| && |buf| + |lines[i]| <= DIR_BUF
      invariant |out| <= space && net.taken == base + out && net.room == space - |out|
      invariant forall k | 0 <= k < |pieces| :: Piece(pieces[k], lines)
    {
      NextLine(lines, i, out, buf);
      assert buf == [] ==> buf + lines[i] == lines[i];
      buf := buf + lines[i];
      assert Piece(buf, lines);
      if i == |lines| - 1 || |buf| + |lines[i + 1]| > DIR_BUF {
        retval := WriteStr(net, buf);
        if retval != 0 {
          FullList(lines, i + 1, out, buf, base, space);
          return 1, pieces;
        }
        ConcatPush(pieces, buf);
        Assoc(base, out, buf);
        pieces, out := pieces + [buf], out + buf;
        buf := [];
      }
    }
    assert lines[..|lines|] == lines;
  }

  /** `ftp_write_str` on the data connection, through `str_netfd_write`. */
  method WriteStr(net: Sink, s: Str) returns (ret: int)
    requires s != []
    modifies net
    ensures net.taken == old(net.taken) + Fitting(s, old(net.room))
    ensures ret == if |s| <= old(net.room) then 0 else -1
    ensures ret == 0 ==> net.room == old(net.room) - |s|
  {
    var wrote := net.WriteLoop(s);
    ret := if wrote < 0 || wrote != |s| then -1 else 0;
  }
}

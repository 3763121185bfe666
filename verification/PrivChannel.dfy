/** The calls of privsock.c on one direction of a socket pair. */
module PrivChannel {
  import opened Bytes
  import opened PrivSock

  /** What is read first of an int and more is the int. */
  lemma IntFirst(v: Int32, rest: Wire)
    ensures var w := IntWire(v) + rest; DecodeInt(Values(w[..4])) == v && w[4..] == rest
    ensures v >= 0 ==> DecodeUnsigned(Values((IntWire(v) + rest)[..4])) == v
  {
    IntFrames(v);
    assert (IntWire(v) + rest)[..4] == IntWire(v);
  }

  lemma StrFirst(s: Str, rest: Wire)
    requires |s| < 0x8000_0000
    ensures var w := StrWire(s) + rest;
            DecodeUnsigned(Values(w[..4])) == |s| && Values(w[4..][..|s|]) == s && w[4..][|s|..] == rest
  {
    IntFirst(|s|, Plains(s) + rest);
    assert StrWire(s) + rest == IntWire(|s|) + (Plains(s) + rest);
    assert (Plains(s) + rest)[..|s|] == Plains(s);
  }

  class Channel {
    var items: Wire   // sent and not yet read

    constructor ()
      ensures items == []
    {
      items := [];
    }

    method SendCmd(cmd: Byte)
      modifies this
      ensures items == old(items) + [Plain(cmd)]
    {
      items := items + [Plain(cmd)];
    }

    method SendInt(v: Int32)
      modifies this
      ensures items == old(items) + IntWire(v)
    {
      items := items + Plains(EncodeInt(v));
    }

    /** `priv_sock_send_str` and `priv_sock_send_buf`: no write at all for an empty string. */
    method SendStr(s: Str)
      requires |s| < 0x8000_0000
      modifies this
      ensures items == old(items) + StrWire(s)
    {
      SendInt(|s|);
      if |s| > 0 {
        items := items + Plains(s);
      }
      assert s == [] ==> StrWire(s) == IntWire(0);
    }

    method SendResult(res: Byte)
      modifies this
      ensures items == old(items) + [Plain(res)]
    {
      items := items + [Plain(res)];
    }

    method SendFd(fd: Fd)
      modifies this
      ensures items == old(items) + [WithFd(fd)]
    {
      items := items + [WithFd(fd)];
    }

    /** `vsf_sysutil_read_loop`; None when the far end is closed before it is done, which kills the reader. */
    method ReadLoop(n: nat) returns (got: Option<Str>)
      modifies this
      ensures |old(items)| < n ==> got == None
      ensures |old(items)| >= n ==> got == Some(Values(old(items)[..n])) && items == old(items)[n..]
    {
      if |items| < n {
        return None;
      }
      got := Some(Values(items[..n]));
      items := items[n..];
    }

    /** `priv_sock_get_cmd` and `priv_sock_get_result`. */
    method GetByte() returns (b: Option<Byte>)
      modifies this
      ensures old(items) == [] ==> b == None
      ensures old(items) != [] ==> b == Some(old(items)[0].Value()) && items == old(items)[1..]
    {
      var got := ReadLoop(1);
      b := if got == None then None else Some(got.value[0]);
    }

    method GetInt() returns (r: Option<Int32>)
      modifies this
      ensures |old(items)| < 4 ==> r == None
      ensures |old(items)| >= 4 ==> r == Some(DecodeInt(Values(old(items)[..4]))) && items == old(items)[4..]
    {
      var got := ReadLoop(4);
      r := if got == None then None else Some(DecodeInt(got.value));
    }

    /** `priv_sock_get_str`, and `priv_sock_recv_buf` with the size of the buffer as the limit. */
    method GetStr(limit: nat) returns (r: Option<Str>)
      modifies this
      ensures |old(items)| >= 4 ==>
                var len := DecodeUnsigned(Values(old(items)[..4]));
                if len > limit || |old(items)| < 4 + len then r == None
                else r == Some(Values(old(items)[4..][..len])) && items == old(items)[4..][len..]
      ensures |old(items)| < 4 ==> r == None
    {
      var v := GetInt();
      if v == None {
        return None;
      }
      var len: int := v.value;
      if len < 0 {
        len := len + 0x1_0000_0000;
      }
      if len > limit {
        return None;   // die("priv_sock_get_str: too big"), bug("recv_len bigger than buffer")
      }
      r := ReadLoop(len);
    }

    method RecvFd() returns (fd: Option<Fd>)
      modifies this
      ensures old(items) != [] && old(items)[0].WithFd? ==> fd == Some(old(items)[0].fd) && items == old(items)[1..]
      ensures old(items) == [] || old(items)[0].Plain? ==> fd == None
    {
      if items == [] || items[0].Plain? {
        return None;
      }
      fd := Some(items[0].fd);
      items := items[1..];
    }
  }
}

/** pipe_win32.cpp: length-prefixed messages over partial transfers. */
module Framing {
  import opened Bytes

  // ---- frames ----

  /** The low k bytes of n, the lowest first. */
  function Low(n: nat, k: nat): (b: bytes)
    ensures |b| == k
    decreases k
  {
    if k == 0 then [] else [n % 256] + Low(n / 256, k - 1)
  }

  function Number(b: bytes): nat {
    if b == [] then 0 else b[0] + 256 * Number(b[1..])
  }

  function Range(k: nat): (r: nat)
    ensures r >= 1
  {
    if k == 0 then 1 else 256 * Range(k - 1)
  }

  /** Byte number i is digit number i in base 256, the lowest first. */
  lemma {:induction false} LowDigit(n: nat, k: nat, i: nat)
    requires i < k
    ensures Low(n, k)[i] == n / Range(i) % 256
    decreases k
  {
    if i > 0 {
      LowDigit(n / 256, k - 1, i - 1);
      DivideTwice(n, 256, Range(i - 1));
    }
  }

  lemma DivideTwice(n: nat, a: nat, b: nat)
    requires a > 0 && b > 0
    ensures n / a / b == n / (a * b)
  {
    var q := n / a / b;
    var r := (n / a % b) * a + n % a;
    assert n == (n / a) * a + n % a && n / a == q * b + n / a % b;
    assert (q * b) * a == q * (a * b);
    assert ((n / a % b) + 1) * a <= b * a;
    QuotientUnique(n, a * b, q, r);
  }

  lemma {:induction false} NumberOfLow(n: nat, k: nat)
    requires n < Range(k)
    ensures Number(Low(n, k)) == n
    decreases k
  {
    if k > 0 {
      NumberOfLow(n / 256, k - 1);
      assert Low(n, k)[1..] == Low(n / 256, k - 1);
    }
  }

  lemma RangeOfFour()
    ensures Range(4) == TWO32
  {
    assert Range(2) == 65536;
    assert Range(4) == 256 * (256 * Range(2));
  }

  /** What a 32-bit length keeps of a message. */
  function Kept(m: bytes): (k: bytes)
    ensures |k| < TWO32 && k <= m
    ensures |m| < TWO32 <==> k == m
  {
    m[..|m| % TWO32]
  }

  function Frame(m: bytes): bytes {
    Low(|m| % TWO32, 4) + Kept(m)
  }

  function Joined<T, U>(l: seq<T>, f: T -> seq<U>): seq<U> {
    if l == [] then [] else f(l[0]) + Joined(l[1..], f)
  }

  function Frames(ms: seq<bytes>): bytes {
    Joined(ms, Frame)
  }

  function AllKept(ms: seq<bytes>): seq<bytes> {
    if ms == [] then [] else [Kept(ms[0])] + AllKept(ms[1..])
  }

  /** The first message in a stream and what follows it; none while it is incomplete. */
  function First(s: bytes): Option<(bytes, bytes)> {
    if |s| < 4 then None
    else
      var n := Number(s[..4]);
      if |s| - 4 < n then None else Some((s[4..4 + n], s[4 + n..]))
  }

  /** The complete messages in a stream. */
  function Messages(s: bytes): seq<bytes>
    decreases |s|
  {
    var f := First(s);
    if f.None? then [] else [f.value.0] + Messages(f.value.1)
  }

  lemma FirstOfFrame(m: bytes, t: bytes)
    ensures First(Frame(m) + t) == Some((Kept(m), t))
  {
    var n := |m| % TWO32;
    var s := Frame(m) + t;
    RangeOfFour();
    NumberOfLow(n, 4);
    assert s[..4] == Low(n, 4);
    assert s[4..4 + n] == Kept(m) && s[4 + n..] == t;
  }

  /** Reading a stream of frames gives the messages, each cut to its 32-bit length. */
  lemma {:induction false} MessagesOfFrames(ms: seq<bytes>)
    ensures Messages(Frames(ms)) == AllKept(ms)
  {
    if ms != [] {
      FirstOfFrame(ms[0], Frames(ms[1..]));
      MessagesOfFrames(ms[1..]);
    }
  }

  lemma {:induction false} AllKeptIff(ms: seq<bytes>)
    ensures AllKept(ms) == ms <==> forall i :: 0 <= i < |ms| ==> |ms[i]| < TWO32
  {
    if ms != [] {
      AllKeptIff(ms[1..]);
      assert ms == [ms[0]] + ms[1..];
      assert AllKept(ms)[0] == Kept(ms[0]) && AllKept(ms)[1..] == AllKept(ms[1..]);
    }
  }

  /** Exactly the messages written come back, in order, if and only if each is shorter than 2^32. */
  lemma FramesRoundTripIff(ms: seq<bytes>)
    ensures Messages(Frames(ms)) == ms <==> forall i :: 0 <= i < |ms| ==> |ms[i]| < TWO32
  {
    MessagesOfFrames(ms);
    AllKeptIff(ms);
  }

  lemma FirstGrows(p: bytes, s: bytes)
    requires p <= s && First(p).Some?
    ensures First(s).Some? && First(s).value.0 == First(p).value.0 && First(p).value.1 <= First(s).value.1
  {
    assert s[..4] == p[..4];
  }

  /** More of the stream only adds messages behind those already there. */
  lemma {:induction false} MessagesGrow(p: bytes, s: bytes)
    requires p <= s
    ensures Messages(p) <= Messages(s)
    decreases |p|
  {
    if First(p).Some? {
      FirstGrows(p, s);
      MessagesGrow(First(p).value.1, First(s).value.1);
    }
  }

  /** Whatever part of the frames has been delivered, the complete messages in it are the first
      ones written: none is lost, invented, merged or reordered. */
  lemma DeliveredInOrder(ms: seq<bytes>, delivered: bytes)
    requires delivered <= Frames(ms)
    ensures Messages(delivered) <= AllKept(ms)
  {
    MessagesGrow(delivered, Frames(ms));
    MessagesOfFrames(ms);
  }

  // ---- writing ----

  class Writer {
    /** Every transfer of something moves something: the schedule only decides how much. */
    const steady: bool
    /** All bytes accepted so far. */
    var sent: bytes
    /** Some transfer failed or moved nothing. */
    var stopped: bool

    constructor (steady: bool)
      ensures this.steady == steady && sent == [] && !stopped
    {
      this.steady, sent, stopped := steady, [], false;
    }

    /** One WriteFile: any number of bytes, or failure. */
    method WriteFile(b: bytes) returns (ok: bool, w: nat)
      modifies this
      ensures w <= |b| && sent == old(sent) + b[..w]
      ensures stopped == (old(stopped) || !ok || w == 0)
      ensures steady && b != [] ==> ok && w > 0
    {
      if steady && b != [] {
        ok := true;
        w :| 0 < w <= |b|;
      } else {
        ok := *;
        w :| w <= |b| && (!ok ==> w == 0);
      }
      sent := sent + b[..w];
      stopped := stopped || !ok || w == 0;
    }

    /** write_all: everything unless a transfer stops it, and then a prefix. */
    method WriteAll(b: bytes) returns (ok: bool)
      requires !stopped
      modifies this
      ensures ok == !stopped && (steady ==> ok)
      ensures old(sent) <= sent <= old(sent) + b
      ensures ok ==> sent == old(sent) + b
    {
      var done := 0;
      ok := true;
      while done < |b|
        invariant done <= |b| && !stopped && sent == old(sent) + b[..done]
      {
        var wrote, w := WriteFile(b[done..]);
        assert b[..done] + b[done..][..w] == b[..done + w];
        assert old(sent) + b[..done] + b[done..][..w] == old(sent) + b[..done + w];
        if !wrote || w == 0 {
          return false;
        }
        done := done + w;
      }
    }

    method WriteMessage(m: bytes) returns (ok: bool)
      requires !stopped
      modifies this
      ensures ok == !stopped && (steady ==> ok)
      ensures old(sent) <= sent <= old(sent) + Frame(m)
      ensures ok ==> sent == old(sent) + Frame(m)
    {
      var n := |m| % TWO32;
      ghost var head := Low(n, 4);
      ok := WriteAll(Low(n, 4));
      assert old(sent) + head + Kept(m) == old(sent) + Frame(m);
      if !ok {
        return;
      }
      ok := WriteAll(m[..n]);
    }
  }

  // ---- reading ----

  class Reader {
    const steady: bool
    /** All bytes the other end will ever have written; which of them have arrived when a read is
        made only bounds how many that read returns. */
    const stream: bytes
    var at: nat
    var stopped: bool

    ghost predicate Valid()
      reads this
    {
      at <= |stream|
    }

    function Rest(): bytes
      requires Valid()
      reads this
    {
      stream[at..]
    }

    constructor (steady: bool, s: bytes)
      ensures this.steady == steady && Valid() && stream == s && Rest() == s && !stopped
    {
      this.steady, stream, at, stopped := steady, s, 0, false;
    }

    /** One ReadFile: any number of the next bytes, or failure. */
    method ReadFile(n: nat) returns (ok: bool, got: bytes)
      requires Valid()
      modifies this
      ensures Valid() && |got| <= n && old(Rest()) == got + Rest()
      ensures stopped == (old(stopped) || !ok || got == [])
      ensures steady && n > 0 && old(Rest()) != [] ==> ok && got != []
    {
      var r: nat := 0;
      if steady && n > 0 && at < |stream| {
        ok := true;
        r :| 0 < r <= n && at + r <= |stream|;
      } else {
        ok := *;
        r :| r <= n && at + r <= |stream| && (!ok ==> r == 0);
      }
      got := stream[at..at + r];
      at := at + r;
      stopped := stopped || !ok || r == 0;
    }

    /** read_all: exactly the next n bytes unless a transfer stops it. */
    method ReadAll(n: nat) returns (ok: bool, got: bytes)
      requires Valid() && !stopped
      modifies this
      ensures Valid() && ok == !stopped
      ensures old(Rest()) == got + Rest() && |got| <= n
      ensures ok ==> |got| == n
      ensures steady && n <= |old(Rest())| ==> ok
    {
      got := [];
      ok := true;
      while |got| < n
        invariant Valid() && !stopped && |got| <= n && old(Rest()) == got + Rest()
        decreases n - |got|
      {
        var read, b := ReadFile(n - |got|);
        assert got + (b + Rest()) == (got + b) + Rest();
        got := got + b;
        if !read || b == [] {
          return false, got;
        }
      }
    }

    /** pipe_read_message: the first message of the stream and only that, or a stopped pipe. */
    method ReadMessage() returns (m: Option<bytes>)
      requires Valid() && !stopped
      modifies this
      ensures Valid() && m.Some? == !stopped
      ensures m.Some? ==> First(old(Rest())) == Some((m.value, Rest()))
      ensures steady && First(old(Rest())).Some? ==> m.Some?
    {
      ghost var s := Rest();
      var ok, head := ReadAll(4);
      if !ok {
        return None;
      }
      assert s[..4] == head;
      var n := Number(head);
      var body;
      ok, body := ReadAll(n);
      if !ok {
        return None;
      }
      TwoParts(s, head, body, Rest());
      m := Some(body);
    }

    /** Reads made one after the other return the messages of the stream in order; only a stopped
        transfer ends them early. */
    method ReadMessages(k: nat) returns (ms: seq<bytes>)
      requires Valid() && !stopped
      modifies this
      ensures Valid()
      ensures |ms| <= k && (|ms| < k ==> stopped) && ms <= Messages(old(Rest()))
      ensures steady && k <= |Messages(old(Rest()))| ==> |ms| == k
    {
      ms := [];
      while |ms| < k
        invariant Valid() && !stopped && |ms| <= k
        invariant Messages(old(Rest())) == ms + Messages(Rest())
        decreases k - |ms|
      {
        var m := ReadMessage();
        if m.None? {
          return;
        }
        assert ms + ([m.value] + Messages(Rest())) == (ms + [m.value]) + Messages(Rest());
        ms := ms + [m.value];
      }
    }
  }

  lemma TwoParts(s: bytes, head: bytes, body: bytes, t: bytes)
    requires s == head + (body + t) && |head| == 4 && |body| == Number(head)
    ensures First(s) == Some((body, t))
  {
    assert s[..4] == head;
    assert s[4..4 + |body|] == body && s[4 + |body|..] == t;
  }

  /** A conversation: whatever the schedule, what is read is a prefix of what was written; and when
      every transfer moves something it is all of it. */
  method Converse(ms: seq<bytes>, steady: bool) returns (got: seq<bytes>)
    ensures got <= AllKept(ms)
    ensures steady ==> got == AllKept(ms)
  {
    var writer := new Writer(steady);
    var i := 0;
    while i < |ms| && !writer.stopped
      invariant i <= |ms| && writer.sent <= Frames(ms)
      invariant !writer.stopped ==> writer.sent == Frames(ms[..i])
      invariant steady ==> !writer.stopped
    {
      JoinedPush(ms, i, Frame);
      JoinedPrefix(ms, i + 1, Frame);
      var ok := writer.WriteMessage(ms[i]);
      PrefixTrans(writer.sent, Frames(ms[..i + 1]), Frames(ms));
      i := i + 1;
    }
    assert ms[..|ms|] == ms;
    DeliveredInOrder(ms, writer.sent);
    MessagesOfFrames(ms);
    AllKeptLength(ms);
    var reader := new Reader(steady, writer.sent);
    got := reader.ReadMessages(|ms|);
  }

  lemma {:induction false} AllKeptLength(ms: seq<bytes>)
    ensures |AllKept(ms)| == |ms|
  {
    if ms != [] {
      AllKeptLength(ms[1..]);
    }
  }

  lemma PrefixTrans(a: bytes, b: bytes, c: bytes)
    requires a <= b <= c
    ensures a <= c
  {
  }

  lemma {:induction false} JoinedConcat<T, U>(a: seq<T>, b: seq<T>, f: T -> seq<U>)
    ensures Joined(a + b, f) == Joined(a, f) + Joined(b, f)
  {
    if a == [] {
      assert a + b == b;
    } else {
      JoinedConcat(a[1..], b, f);
      assert (a + b)[0] == a[0] && (a + b)[1..] == a[1..] + b;
      JoinedFirst(f(a[0]), Joined(a[1..], f), Joined(b, f));
    }
  }

  lemma JoinedFirst<U>(x: seq<U>, y: seq<U>, z: seq<U>)
    ensures x + (y + z) == (x + y) + z
  {
  }

  lemma JoinedOne<T, U>(a: seq<T>, x: T, f: T -> seq<U>)
    ensures Joined(a + [x], f) == Joined(a, f) + f(x)
  {
    JoinedConcat(a, [x], f);
    assert Joined([x], f) == f(x) + [];
  }

  lemma JoinedPush<T, U>(l: seq<T>, i: nat, f: T -> seq<U>)
    requires i < |l|
    ensures Joined(l[..i + 1], f) == Joined(l[..i], f) + f(l[i])
  {
    JoinedOne(l[..i], l[i], f);
    assert l[..i + 1] == l[..i] + [l[i]];
  }

  lemma JoinedPrefix<T, U>(l: seq<T>, i: nat, f: T -> seq<U>)
    requires i <= |l|
    ensures Joined(l[..i], f) <= Joined(l, f)
  {
    JoinedConcat(l[..i], l[i..], f);
    assert l == l[..i] + l[i..];
  }
}

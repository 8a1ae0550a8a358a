/**
  Authenticated ciphers that keep a cipher state and a MAC state through a run of calls. Encryption runs
  the MAC over what it puts out, decryption over what it takes in, so the two sides stay in step.
 */
module AeadRuns {
  import opened CounterStreams

  /**
    What such a cipher is made of: its stream, the counter after a text, and the steps of the MAC. The
    MAC starts a message from the counter and the length of the text, and ends it with a code.
   */
  datatype Aead<!N, !A> = Aead(
    crypt: (N, Bytes) -> Bytes, after: (N, nat) -> N,
    start: (A, N, nat) -> A, absorb: (A, Bytes) -> A, associate: (A, Bytes) -> A, finish: A -> (Bytes, A))

  /** The stream undoes itself and keeps lengths. */
  ghost predicate Sound<N(!new), A(!new)>(p: Aead<N, A>) {
    && (forall n, m :: |p.crypt(n, m)| == |m|)
    && (forall n, m :: p.crypt(n, p.crypt(n, m)) == m)
  }

  datatype Side<N, A> = Side(n: N, a: A, encrypt: bool)

  /** A call: associated data, or a text. A text that does not end the message has no code. */
  datatype Call = Associate(data: Bytes) | Text(text: Bytes, final: bool)

  datatype Result = Done(out: Bytes) | Refused

  /** The MAC state after a text, and the code. */
  function Coded<N, A>(p: Aead<N, A>, s: Side<N, A>, c: Bytes, final: bool): (r: (Bytes, A)) {
    var a := p.absorb(p.start(s.a, s.n, |c|), c);
    if final then p.finish(a) else ([], a)
  }

  /** Encryption: the text, and the code behind it. */
  function Encrypt<N, A>(p: Aead<N, A>, s: Side<N, A>, m: Bytes, final: bool): (r: (Side<N, A>, Bytes)) {
    var c := p.crypt(s.n, m);
    var (code, a) := Coded(p, s, c, final);
    (Side(p.after(s.n, |m|), a, s.encrypt), c + code)
  }

  /**
    Decryption of a text of the given length. It is refused, and nothing is put out, if it should carry
    another code.
   */
  function Decrypt<N, A>(p: Aead<N, A>, s: Side<N, A>, length: nat, wire: Bytes, final: bool): (r: (Side<N, A>, Result))
    requires length <= |wire|
  {
    var c := wire[..length];
    var (code, a) := Coded(p, s, c, final);
    if !final || code == wire[length..] then (Side(p.after(s.n, length), a, s.encrypt), Done(p.crypt(s.n, c)))
    else (Side(s.n, a, s.encrypt), Refused)
  }

  function Associated<N, A>(p: Aead<N, A>, s: Side<N, A>, data: Bytes): Side<N, A> {
    Side(s.n, p.associate(s.a, data), s.encrypt)
  }

  /** A run of the sender: the final state, and what goes over the wire for every text. */
  function Send<N, A>(p: Aead<N, A>, s: Side<N, A>, calls: seq<Call>): (r: (Side<N, A>, seq<Bytes>))
    decreases |calls|
  {
    if calls == [] then (s, [])
    else match calls[0]
      case Associate(data) => Send(p, Associated(p, s, data), calls[1..])
      case Text(m, final) =>
        var (t, wire) := Encrypt(p, s, m, final);
        var (u, wires) := Send(p, t, calls[1..]);
        (u, [wire] + wires)
  }

  /** A run of the receiver, who knows the calls but not the texts, only their lengths. */
  function Receive<N, A>(p: Aead<N, A>, s: Side<N, A>, calls: seq<Call>,
      wires: seq<Bytes>): (r: (Side<N, A>, seq<Result>))
    decreases |calls|
  {
    if calls == [] then (s, [])
    else match calls[0]
      case Associate(data) => Receive(p, Associated(p, s, data), calls[1..], wires)
      case Text(m, final) =>
        if wires == [] || |wires[0]| < |m| then (s, [])
        else
          var (t, out) := Decrypt(p, s, |m|, wires[0], final);
          var (u, outs) := Receive(p, t, calls[1..], wires[1..]);
          (u, [out] + outs)
  }

  /** The texts of a run, as results. */
  function Texts(calls: seq<Call>): (t: seq<Result>)
    decreases |calls|
  {
    if calls == [] then []
    else if calls[0].Associate? then Texts(calls[1..])
    else [Done(calls[0].text)] + Texts(calls[1..])
  }

  /** Two states initialised alike, for the two directions. */
  predicate Paired<N(==), A(==)>(e: Side<N, A>, d: Side<N, A>) {
    e.n == d.n && e.a == d.a && e.encrypt && !d.encrypt
  }

  /** One text: the receiver accepts, recovers it, and stays in step. */
  lemma {:induction false} DecryptEncrypt<N(!new), A(!new)>(p: Aead<N, A>, e: Side<N, A>, d: Side<N, A>, m: Bytes,
      final: bool)
    requires Sound(p) && Paired(e, d)
    ensures var (t, wire) := Encrypt(p, e, m, final);
      |wire| >= |m| && var (u, out) := Decrypt(p, d, |m|, wire, final); out == Done(m) && Paired(t, u)
  {
    var c := p.crypt(e.n, m);
    var (t, wire) := Encrypt(p, e, m, final);
    assert wire[..|m|] == c && wire[|m|..] == Coded(p, e, c, final).0;
  }

  /** Any run: the receiver recovers every text and the two states differ in the mode flag only. */
  lemma {:induction false} Lockstep<N(!new), A(!new)>(p: Aead<N, A>, e: Side<N, A>, d: Side<N, A>, calls: seq<Call>)
    requires Sound(p) && Paired(e, d)
    ensures var (t, wires) := Send(p, e, calls); var (u, outs) := Receive(p, d, calls, wires);
      outs == Texts(calls) && Paired(t, u)
    decreases |calls|
  {
    if calls != [] {
      match calls[0]
      case Associate(data) =>
        Lockstep(p, Associated(p, e, data), Associated(p, d, data), calls[1..]);
      case Text(m, final) =>
        DecryptEncrypt(p, e, d, m, final);
        var (t, wire) := Encrypt(p, e, m, final);
        Lockstep(p, t, Decrypt(p, d, |m|, wire, final).0, calls[1..]);
        var wires := Send(p, t, calls[1..]).1;
        assert ([wire] + wires)[1..] == wires;
    }
  }

  /**
    A text with a code is accepted exactly when it is what the sender's side would have sent for the text
    that it decrypts to.
   */
  lemma {:induction false} AcceptedIsSent<N(!new), A(!new)>(p: Aead<N, A>, e: Side<N, A>, d: Side<N, A>, length: nat,
      wire: Bytes)
    requires Sound(p) && Paired(e, d) && length <= |wire|
    ensures Decrypt(p, d, length, wire, true).1.Done? <==> Encrypt(p, e, p.crypt(d.n, wire[..length]), true).1 == wire
  {
    var c := wire[..length];
    var code := Coded(p, d, c, true).0;
    assert p.crypt(e.n, p.crypt(d.n, c)) == c;
    assert wire == c + wire[length..];
    if c + code == wire {
      assert wire[length..] == code;
    }
  }

  /**
    After a refusal the sender's next text still comes through exactly when the two MAC states, the moved
    one and the one that stayed, make the same code for it. Otherwise this text is refused, too.
   */
  lemma {:induction false} AfterRefusal<N(!new), A(!new)>(p: Aead<N, A>, e: Side<N, A>, d: Side<N, A>, length: nat,
      wire: Bytes, m: Bytes)
    requires Sound(p) && Paired(e, d) && length <= |wire| && Decrypt(p, d, length, wire, true).1 == Refused
    ensures var d' := Decrypt(p, d, length, wire, true).0;
      var c, next := p.crypt(e.n, m), Encrypt(p, e, m, true).1;
      && |m| <= |next|
      && (Decrypt(p, d', |m|, next, true).1 == Done(m) <==> Coded(p, d', c, true).0 == Coded(p, e, c, true).0)
      && (Decrypt(p, d', |m|, next, true).1 == Refused <==> Coded(p, d', c, true).0 != Coded(p, e, c, true).0)
  {
    var c, next := p.crypt(e.n, m), Encrypt(p, e, m, true).1;
    assert next[..|m|] == c && next[|m|..] == Coded(p, e, c, true).0;
  }
}

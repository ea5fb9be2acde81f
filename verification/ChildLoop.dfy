/** The honest child (src/runtime.rs, `child_loop`): it greets, answers every request and leaves on STOP. */
module ChildLoop {
  import opened Words
  import opened Utf8
  import opened Lines
  import opened Frames
  import opened WireLanguage
  import P = Protocol
  import Workload

  const BOUND_PREFIX := P.PROTOCOL_VERSION + " BOUND_REQUEST "

  datatype Reaction = Reply(ack: P.ExpectedAck, actions: u64) | Leave(ack: P.ExpectedAck) | Refuse

  /** What the child does with a request it could parse. */
  function Serve(actions: u64, r: P.ChildRequest): (x: Reaction)
  {
    match r
    case Work(id, nonce, units) =>
      if actions == 0xffff_ffff_ffff_ffff then Refuse
      else Reply(P.WorkAck(id, nonce, actions + 1, Workload.Digest(id, units)), actions + 1)
    case Rollback(id, nonce) => Reply(P.RollbackAck(id, nonce), actions)
    case Probe(id, nonce) => Reply(P.ProbeAck(id, nonce), actions)
    case Stop(id, nonce) => Leave(P.StopAck(id, nonce))
  }

  /** The message that carries an acknowledgement: bound like its request, or plain. */
  datatype Handled = Handled(reaction: Reaction, authority: Option<P.AuthoritySnapshot>)
  {
    function Message(): P.Message
      requires !reaction.Refuse?
    {
      if authority.Some? then P.BoundAck(reaction.ack, authority.value) else P.Ack(reaction.ack)
    }
  }

  function Handle(actions: u64, line: string): (h: Handled)
  {
    if BOUND_PREFIX <= line then
      match P.ParseBoundRequest(line)
      case Err => Handled(Refuse, None)
      case Ok((request, authority)) => Handled(Serve(actions, request), Some(authority))
    else
      match P.ParseRequest(line)
      case Err => Handled(Refuse, None)
      case Ok(request) => Handled(Serve(actions, request), None)
  }

  /** What the child writes after its greeting for a given standard input, and whether it ends well. */
  datatype Session = Session(output: seq<byte>, ok: bool)

  function SessionFrom(input: seq<byte>, actions: u64): (s: Session)
    decreases |input|
  {
    match ReadFrame(input)
    case NoFrame => Session([], false)
    case BadFrame => Session([], false)
    case Frame(line) =>
      var h := Handle(actions, line);
      match h.reaction
      case Refuse => Session([], false)
      case Leave(_) => Session(Encode(P.Print(h.Message())), true)
      case Reply(_, actions') =>
        var rest := SessionFrom(input[FrameLength(input)..], actions');
        Session(Encode(P.Print(h.Message())) + rest.output, rest.ok)
  }

  method ChildLoop(input: seq<byte>, pid: u64) returns (output: seq<byte>, ok: bool)
    ensures output == Encode(P.Print(P.Hello(pid))) + SessionFrom(input, 0).output
    ensures ok == SessionFrom(input, 0).ok
  {
    hide ReadFrame, FrameLength, Handle, Encode, P.Print, Handled.Message;
    var hello := Encode(P.Print(P.Hello(pid)));
    output := hello;
    var actions: u64 := 0;
    var position := 0;
    while true
      invariant 0 <= position <= |input|
      invariant output + SessionFrom(input[position..], actions).output == hello + SessionFrom(input, 0).output
      invariant SessionFrom(input[position..], actions).ok == SessionFrom(input, 0).ok
      decreases |input| - position
    {
      var frame, end := ReadProtocolFrame(input, position);
      assert input[position..][end - position..] == input[end..];
      match frame
      case NoFrame =>
        return output, false;
      case BadFrame =>
        return output, false;
      case Frame(line) =>
        var h := Handle(actions, line);
        match h.reaction
        case Refuse =>
          return output, false;
        case Leave(_) =>
          return output + Encode(P.Print(h.Message())), true;
        case Reply(_, served) =>
          assert output + Encode(P.Print(h.Message())) + SessionFrom(input[end..], served).output
              == output + (Encode(P.Print(h.Message())) + SessionFrom(input[end..], served).output);
          output := output + Encode(P.Print(h.Message()));
          actions := served;
          position := end;
    }
  }

  // ---------------------------------------------------------------------------------------------
  // Bound requests are handled as such
  // ---------------------------------------------------------------------------------------------

  lemma BoundRequestHandled(m: P.Message, actions: u64)
    requires m.BoundRequest? && P.InBounds(m.request)
    ensures Handle(actions, P.Text(m)) == Handled(Serve(actions, m.request), Some(m.authority))
  {
    hide P.ParseBoundRequest, P.ParseRequest, P.Tokens, Serve;
    BoundRequestLanguage(P.Text(m), m.request, m.authority);
    BoundPrefix(m);
  }

  lemma JoinFirst(t: seq<string>)
    requires |t| > 1
    ensures P.Join(t) == t[0] + " " + P.Join(t[1..])
  {
  }

  lemma JoinStarts(t: seq<string>)
    requires |t| > 2
    ensures t[0] + " " + t[1] + " " <= P.Join(t)
  {
    hide P.Join;
    JoinFirst(t);
    JoinFirst(t[1..]);
    StartsWith(t[0] + " ", t[1] + " ", P.Join(t[1..][1..]));
    Regroup(t[0] + " ", t[1], " ");
  }

  lemma StartsWith(a: string, b: string, c: string)
    ensures a + b <= a + (b + c)
  {
    assert a + (b + c) == a + b + c;
  }

  lemma Regroup(a: string, b: string, c: string)
    ensures a + (b + c) == a + b + c
  {
  }

  lemma BoundPrefix(m: P.Message)
    requires m.BoundRequest?
    ensures BOUND_PREFIX <= P.Text(m)
  {
    hide P.Tokens, P.Join, P.Header, P.Fields, P.Operation;
    MessageTokens(m);
    TokenNumbers(m);
    JoinStarts(P.Tokens(m));
    assert P.PROTOCOL_VERSION + " " + "BOUND_REQUEST" + " " == BOUND_PREFIX;
  }

  // ---------------------------------------------------------------------------------------------
  // Plain requests, and everything else
  // ---------------------------------------------------------------------------------------------

  lemma PlainPrefix(m: P.Message)
    requires m.Request?
    ensures !(BOUND_PREFIX <= P.Text(m))
  {
    hide P.Tokens, P.Join, P.Header, P.Fields, P.Operation;
    MessageTokens(m);
    TokenNumbers(m);
    JoinStarts(P.Tokens(m));
    var plain := P.PROTOCOL_VERSION + " " + "REQUEST" + " ";
    assert plain <= P.Text(m);
    assert P.Text(m)[12] == plain[12] == 'R' && BOUND_PREFIX[12] == 'B';
  }

  /** A plain request is served in the plain form. */
  lemma PlainRequestHandled(r: P.ChildRequest, actions: u64)
    requires P.InBounds(r)
    ensures Handle(actions, P.Text(P.Request(r))) == Handled(Serve(actions, r), None)
  {
    hide P.ParseBoundRequest, P.ParseRequest, P.Tokens, Serve;
    RequestLanguage(P.Text(P.Request(r)), r);
    PlainPrefix(P.Request(r));
  }

  /** A line that is the printed form of no request, or of one out of bounds, ends the child. */
  lemma OthersRefused(line: string, actions: u64)
    requires forall m: P.Message :: (m.Request? || m.BoundRequest?) && P.InBounds(m.request) ==> line != P.Text(m)
    ensures Handle(actions, line) == Handled(Refuse, None)
  {
    hide P.ParseBoundRequest, P.ParseRequest, P.Text, P.Print, P.InBounds, Serve;
    if P.ParseRequest(line).Ok? {
      var r := P.ParseRequest(line).value;
      RequestLanguage(line, r);
      LineIsText(line, P.Request(r));
      assert false;
    }
    if P.ParseBoundRequest(line).Ok? {
      var (r, a) := P.ParseBoundRequest(line).value;
      BoundRequestLanguage(line, r, a);
      LineIsText(line, P.BoundRequest(r, a));
      assert false;
    }
  }

  /** A printed message is its text as a line. */
  lemma PrintedLine(m: P.Message)
    ensures Encode(P.Print(m)) == Encode(P.Text(m)) + [LF]
  {
    hide P.Text;
    EncodeConcat(P.Text(m), "\n");
    EncodeSingle('\n');
  }

  /** The child's next step on a bound request. */
  lemma SessionStep(m: P.Message, rest: seq<byte>, actions: u64)
    requires m.BoundRequest? && P.InBounds(m.request)
    ensures var x := Serve(actions, m.request);
            var s := SessionFrom(Encode(P.Text(m)) + [LF] + rest, actions);
            if x.Refuse? then s == Session([], false)
            else if x.Leave? then s == Session(Encode(P.Text(P.BoundAck(x.ack, m.authority))) + [LF], true)
            else
              s == Session(Encode(P.Text(P.BoundAck(x.ack, m.authority))) + [LF] + SessionFrom(rest, x.actions).output,
                           SessionFrom(rest, x.actions).ok)
  {
    hide P.Text, P.Print, Encode, ReadFrame, FrameLength, Serve, Handle;
    MessageFits(m);
    FrameOfLine(P.Text(m), rest);
    BoundRequestHandled(m, actions);
    var x := Serve(actions, m.request);
    if !x.Refuse? {
      PrintedLine(P.BoundAck(x.ack, m.authority));
    }
  }
}

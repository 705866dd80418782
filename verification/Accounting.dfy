/**
 Request and reply accounting of one server connection: what the packet callbacks count, which
 messages they forward, drop or answer with a detach.
 */
module Accounting {
  import opened Framing
  import opened Wrappers

  /** The settings of the route's rule that matter here. */
  datatype Rule = Rule(
    transactionPooling: bool, replication: bool, poolRollback: bool, poolCancel: bool, poolDiscard: bool)

  /** The accounting fields of a server. */
  datatype Server = Server(
    isTransaction: bool, isCopy: bool, deploySync: nat, syncRequest: nat, syncReply: nat)
  {
    predicate InDeploy() {
      deploySync > 0
    }

    predicate Synchronized() {
      syncRequest == syncReply
    }
  }

  datatype TxStatus = Idle | Open | Failed | Unknown

  /** A backend message, as far as the callback looks at it. */
  datatype BackendMessage =
    | ErrorResponse
    | ParameterStatus(parses: bool)
    | CopyIn
    | CopyOut
    | CopyDone
    | ReadyForQuery(wellFormed: bool, status: TxStatus)
    | Other(kind: Byte)
  {
    predicate Ready() {
      ReadyForQuery?
    }

    predicate Reassembled() {
      ErrorResponse? || ParameterStatus? || ReadyForQuery?
    }
  }

  const READ_ERROR := 1
  const STOP := 2

  /** A ReadyForQuery message: the transaction flag and the reply count. */
  function BackendReady(s: Server, m: BackendMessage): Server
    requires m.ReadyForQuery?
  {
    if !m.wellFormed then s
    else
      s.(isTransaction := if m.status.Idle? then false
                          else if m.status.Open? || m.status.Failed? then true
                          else s.isTransaction,
         syncReply := s.syncReply + 1)
  }

  function OnServerMessage(rule: Rule, s: Server, m: BackendMessage): (Server, Verdict) {
    if m == ParameterStatus(false) then (s, Refuse(READ_ERROR))
    else
      var s1 := match m
        case CopyIn => s.(isCopy := true)
        case CopyOut => s.(isCopy := true)
        case CopyDone => s.(isCopy := false)
        case ReadyForQuery(_, _) =>
          var ready := BackendReady(s, m);
          if s.InDeploy() then ready.(deploySync := s.deploySync - 1) else ready
        case _ => s;
      (s1,
       if s.InDeploy() then Skip
       else if m.Ready() && rule.transactionPooling && !s1.isTransaction && !rule.replication then Detach
       else Pass)
  }

  /** Requests that the server answers with a ReadyForQuery. */
  predicate Counted(kind: Byte) {
    kind as char in {'Q', 'F', 'S'}
  }

  function OnClientMessage(s: Server, kind: Byte): (Server, Verdict) {
    if kind as char == 'X' then (s, Refuse(STOP))
    else
      (if kind as char in {'c', 'f'} then s.(isCopy := false)
       else if Counted(kind) then s.(syncRequest := s.syncRequest + 1)
       else s,
       Pass)
  }

  // --------------------------------------------- what the counts mean over a history

  /** One message of either side, in the order in which the callbacks see them. */
  datatype Traffic = FromServer(message: BackendMessage) | FromClient(kind: Byte)

  function After(rule: Rule, s: Server, log: seq<Traffic>): Server {
    if log == [] then s
    else
      var before := After(rule, s, log[..|log| - 1]);
      match log[|log| - 1]
      case FromServer(m) => OnServerMessage(rule, before, m).0
      case FromClient(kind) => OnClientMessage(before, kind).0
  }

  predicate IsReady(t: Traffic) {
    t.FromServer? && t.message.ReadyForQuery?
  }

  predicate IsReply(t: Traffic) {
    IsReady(t) && t.message.wellFormed
  }

  predicate IsRequest(t: Traffic) {
    t.FromClient? && Counted(t.kind)
  }

  /** How many messages of the history meet `p`. */
  function Count<T>(p: T -> bool, log: seq<T>): nat {
    if log == [] then 0 else (if p(log[0]) then 1 else 0) + Count(p, log[1..])
  }

  lemma {:induction false} CountSnoc<T>(p: T -> bool, log: seq<T>, t: T)
    ensures Count(p, log + [t]) == Count(p, log) + (if p(t) then 1 else 0)
  {
    if log != [] {
      assert (log + [t])[1..] == log[1..] + [t];
      CountSnoc(p, log[1..], t);
    } else {
      assert log + [t] == [t];
    }
  }

  /** What the message says about a transaction, if anything. */
  function TransactionSaid(t: Traffic): Option<bool> {
    if IsReply(t) && !t.message.status.Unknown? then Some(!t.message.status.Idle?) else None
  }

  /** What the message says about a copy, if anything. */
  function CopySaid(t: Traffic): Option<bool> {
    match t
    case FromServer(m) => if m.CopyIn? || m.CopyOut? then Some(true) else if m.CopyDone? then Some(false) else None
    case FromClient(kind) => if kind as char in {'c', 'f'} then Some(false) else None
  }

  /** The last that was said in the history, or `before` if nothing was. */
  function LastSaid<T>(said: T -> Option<bool>, before: bool, log: seq<T>): bool {
    if log == [] then before
    else if said(log[|log| - 1]).Some? then said(log[|log| - 1]).value
    else LastSaid(said, before, log[..|log| - 1])
  }

  lemma LastSaidSnoc<T>(said: T -> Option<bool>, before: bool, log: seq<T>, t: T)
    ensures LastSaid(said, before, log + [t]) ==
            if said(t).Some? then said(t).value else LastSaid(said, before, log)
  {
    assert (log + [t])[..|log|] == log;
  }

  /** The fields of `s` are what `log` says about a server that started as `start`. */
  predicate Tallied(start: Server, log: seq<Traffic>, s: Server) {
    && s.syncRequest == start.syncRequest + Count(IsRequest, log)
    && s.syncReply == start.syncReply + Count(IsReply, log)
    && s.deploySync ==
         (if Count(IsReady, log) >= start.deploySync then 0 else start.deploySync - Count(IsReady, log))
    && s.isTransaction == LastSaid(TransactionSaid, start.isTransaction, log)
    && s.isCopy == LastSaid(CopySaid, start.isCopy, log)
  }

  lemma TallySnoc(rule: Rule, start: Server, log: seq<Traffic>, s: Server, t: Traffic)
    requires Tallied(start, log, s)
    ensures Tallied(start, log + [t], if t.FromServer? then OnServerMessage(rule, s, t.message).0
                                      else OnClientMessage(s, t.kind).0)
  {
    CountSnoc(IsRequest, log, t);
    CountSnoc(IsReply, log, t);
    CountSnoc(IsReady, log, t);
    LastSaidSnoc(TransactionSaid, start.isTransaction, log, t);
    LastSaidSnoc(CopySaid, start.isCopy, log, t);
    hide Count, LastSaid;
  }

  /**
   After any exchange of messages, the five fields are what the whole history says: the requests and the
   replies counted, the deploy queries still outstanding, and the last word on the transaction and the copy.
   */
  lemma {:induction false} HistoryOf(rule: Rule, s: Server, log: seq<Traffic>)
    ensures Tallied(s, log, After(rule, s, log))
    decreases |log|
  {
    if log != [] {
      var init, t := log[..|log| - 1], log[|log| - 1];
      assert log == init + [t];
      hide Tallied, OnServerMessage, OnClientMessage;
      HistoryOf(rule, s, init);
      TallySnoc(rule, s, init, After(rule, s, init), t);
    }
  }

  /** Requests and replies are in balance exactly when the history since a balance is. */
  lemma SynchronizedIff(rule: Rule, s: Server, log: seq<Traffic>)
    requires s.Synchronized()
    ensures After(rule, s, log).Synchronized() <==> Count(IsRequest, log) == Count(IsReply, log)
  {
    HistoryOf(rule, s, log);
  }

  /**
   The fate of a server's message is decided by the history: hidden while fewer ReadyForQuery messages have
   come than deploy queries were sent, and the server given back exactly at a later ReadyForQuery after which
   the last known status is idle, under transaction pooling and without replication.
   */
  lemma VerdictOf(rule: Rule, s: Server, log: seq<Traffic>, m: BackendMessage)
    ensures var v := OnServerMessage(rule, After(rule, s, log), m).1;
            && (v.Refuse? <==> m == ParameterStatus(false))
            && (v.Skip? <==> m != ParameterStatus(false) && Count(IsReady, log) < s.deploySync)
            && (v.Detach? <==> m.Ready() && Count(IsReady, log) >= s.deploySync &&
                               rule.transactionPooling && !rule.replication &&
                               !LastSaid(TransactionSaid, s.isTransaction, log + [FromServer(m)]))
  {
    HistoryOf(rule, s, log);
    LastSaidSnoc(TransactionSaid, s.isTransaction, log, FromServer(m));
    hide Count, After, LastSaid;
  }

  /** The messages that the relay forwards to the client. */
  function Forwarded(rule: Rule, s: Server, log: seq<Traffic>): seq<BackendMessage> {
    if log == [] then []
    else
      var init, t := log[..|log| - 1], log[|log| - 1];
      Forwarded(rule, s, init) +
      (if t.FromServer? && OnServerMessage(rule, After(rule, s, init), t.message).1.Forwards() then [t.message] else [])
  }

  /** The readable messages of the server behind the first `skip` ReadyForQuery messages. */
  function Behind(log: seq<Traffic>, skip: nat): seq<BackendMessage> {
    if log == [] then []
    else if skip > 0 then Behind(log[1..], if IsReady(log[0]) then skip - 1 else skip)
    else
      (if log[0].FromServer? && log[0].message != ParameterStatus(false) then [log[0].message] else []) +
      Behind(log[1..], 0)
  }

  lemma {:induction false} BehindSnoc(log: seq<Traffic>, t: Traffic, skip: nat)
    ensures Behind(log + [t], skip) ==
            Behind(log, skip) + (if t.FromServer? && t.message != ParameterStatus(false) && Count(IsReady, log) >= skip
                                 then [t.message] else [])
    decreases |log|
  {
    hide IsReady;
    if log == [] {
      assert log + [t] == [t] && [t][1..] == [];
    } else {
      assert (log + [t])[1..] == log[1..] + [t];
      BehindSnoc(log[1..], t, if skip > 0 && IsReady(log[0]) then skip - 1 else skip);
    }
  }

  /** Of the server's messages the client gets exactly those behind the deploy queries' ReadyForQuery messages. */
  lemma {:induction false} DeployHidden(rule: Rule, s: Server, log: seq<Traffic>)
    ensures Forwarded(rule, s, log) == Behind(log, s.deploySync)
    decreases |log|
  {
    if log != [] {
      var init, t := log[..|log| - 1], log[|log| - 1];
      assert log == init + [t];
      DeployHidden(rule, s, init);
      BehindSnoc(init, t, s.deploySync);
      if t.FromServer? {
        VerdictOf(rule, s, init, t.message);
      }
      hide Behind, Count, After, OnServerMessage, LastSaid;
    }
  }

  // ------------------------------------------------- the callbacks on packets

  /** Which message a packet holds; `parses` says whether a ParameterStatus body is readable. */
  function Decode(parses: seq<Byte> -> bool, data: seq<Byte>): BackendMessage
    requires data != []
  {
    match data[0] as char
    case 'E' => ErrorResponse
    case 'S' => ParameterStatus(parses(data))
    case 'G' => CopyIn
    case 'H' => CopyOut
    case 'c' => CopyDone
    case 'Z' =>
      if |data| == 6 && DeclaredLength(data) == 5 then
        ReadyForQuery(true, match data[5] as char
                            case 'I' => Idle
                            case 'T' => Open
                            case 'E' => Failed
                            case _ => Unknown)
      else ReadyForQuery(false, Unknown)
    case _ => Other(data[0])
  }

  function ServerCallback(rule: Rule, parses: seq<Byte> -> bool): (Server, seq<Byte>) -> (Server, Verdict) {
    (s: Server, data: seq<Byte>) =>
      if data == [] then (s, Pass) else OnServerMessage(rule, s, Decode(parses, data))
  }

  function ClientCallback(): (Server, seq<Byte>) -> (Server, Verdict) {
    (s: Server, data: seq<Byte>) => if data == [] then (s, Pass) else OnClientMessage(s, data[0])
  }

  /** Both callbacks meet the conditions under which cutting the stream into reads cannot be noticed. */
  lemma CallbacksIgnoreCuts(rule: Rule, parses: seq<Byte> -> bool)
    ensures TypeOnly(ServerCallback(rule, parses)) && NoStreamedDetach(ServerCallback(rule, parses))
    ensures TypeOnly(ClientCallback()) && NoStreamedDetach(ClientCallback())
  {
    var cb := ServerCallback(rule, parses);
    forall s: Server, a: seq<Byte>, b: seq<Byte> | |a| > 0 && |b| > 0 && a[0] == b[0] && !FullRequired(a[0])
      ensures cb(s, a) == cb(s, b) && !cb(s, a).1.Detach?
    {
      assert Decode(parses, a) == Decode(parses, b);
      assert !Decode(parses, a).Reassembled();
    }
  }

  // ------------------------------------------------------ the callbacks in bytes

  /** The frontend's messages and the bytes that the protocol gives them. */
  datatype FrontendMessage =
    | Terminate | PasswordMessage | Query | FunctionCall | Parse | Bind | Describe | Execute | Sync | Close
    | CopyData | CopyFinished | CopyFailed
  {
    function Type(): char {
      match this
      case Terminate => 'X'
      case PasswordMessage => 'p'
      case Query => 'Q'
      case FunctionCall => 'F'
      case Parse => 'P'
      case Bind => 'B'
      case Describe => 'D'
      case Execute => 'E'
      case Sync => 'S'
      case Close => 'C'
      case CopyData => 'd'
      case CopyFinished => 'c'
      case CopyFailed => 'f'
    }
  }

  /** Counted are exactly the three messages that the server answers with a ReadyForQuery of their own. */
  lemma RequestsAreCounted(m: FrontendMessage, kind: Byte)
    requires kind as char == m.Type()
    ensures Counted(kind) <==> m in {Query, FunctionCall, Sync}
  {
  }

  /**
   What a packet from the server does, byte by byte. Six bytes of type `Z` with a length of 5 are a reply: the sixth
   ends the transaction if it is `I` and opens one if it is `T` or `E`. `G` and `H` begin a copy and `c` ends it.
   */
  lemma ServerBytes(rule: Rule, parses: seq<Byte> -> bool, s: Server, data: seq<Byte>)
    requires |data| >= 5
    ensures var (s1, v) := ServerCallback(rule, parses)(s, data);
            var kind := data[0] as char;
            var reply := kind == 'Z' && |data| == 6 && BigEndian(data[1..5]) == 5;
            var refused := kind == 'S' && !parses(data);
            && s1.isTransaction == (if reply && data[5] as char == 'I' then false
                                    else if reply && data[5] as char in {'T', 'E'} then true
                                    else s.isTransaction)
            && s1.isCopy == (if kind == 'G' || kind == 'H' then true else if kind == 'c' then false else s.isCopy)
            && s1.syncRequest == s.syncRequest
            && s1.syncReply == s.syncReply + (if reply then 1 else 0)
            && s1.deploySync == (if kind == 'Z' && s.deploySync > 0 then s.deploySync - 1 else s.deploySync)
            && (v.Refuse? <==> refused)
            && (v.Skip? <==> !refused && s.deploySync > 0)
            && (v.Detach? <==> kind == 'Z' && s.deploySync == 0 && rule.transactionPooling && !rule.replication &&
                               !s1.isTransaction)
  {
    LengthIsBigEndian(data);
    hide BigEndian, DeclaredLength;
  }

  /** What a packet from the client does: `Q`, `F` and `S` ask for a reply, `c` and `f` end a copy, `X` stops. */
  lemma ClientBytes(s: Server, data: seq<Byte>)
    requires |data| >= 5
    ensures var (s1, v) := ClientCallback()(s, data);
            var kind := data[0] as char;
            && s1 == s.(isCopy := s.isCopy && kind != 'c' && kind != 'f', syncRequest := s1.syncRequest)
            && s1.syncRequest == s.syncRequest + (if kind == 'Q' || kind == 'F' || kind == 'S' then 1 else 0)
            && v == if kind == 'X' then Refuse(STOP) else Pass
  {
  }

  /** A packet of either side. */
  datatype Packet = Packet(fromServer: bool, data: seq<Byte>) {
    function Type(): char
      requires data != []
    {
      data[0] as char
    }
  }

  /** The callbacks on the packets of both sides, in the order in which they come. */
  function AfterPackets(rule: Rule, parses: seq<Byte> -> bool, s: Server, ps: seq<Packet>): Server {
    if ps == [] then s
    else
      var before, p := AfterPackets(rule, parses, s, ps[..|ps| - 1]), ps[|ps| - 1];
      if p.fromServer then ServerCallback(rule, parses)(before, p.data).0 else ClientCallback()(before, p.data).0
  }

  predicate AllPackets(ps: seq<Packet>) {
    forall i :: 0 <= i < |ps| ==> |ps[i].data| >= 5
  }

  predicate RequestBytes(p: Packet) {
    !p.fromServer && p.data != [] && p.Type() in {'Q', 'F', 'S'}
  }

  predicate ReadyBytes(p: Packet) {
    p.fromServer && p.data != [] && p.Type() == 'Z'
  }

  predicate ReplyBytes(p: Packet) {
    ReadyBytes(p) && |p.data| == 6 && BigEndian(p.data[1..5]) == 5
  }

  function TransactionBytes(p: Packet): Option<bool> {
    if ReplyBytes(p) && p.data[5] as char == 'I' then Some(false)
    else if ReplyBytes(p) && p.data[5] as char in {'T', 'E'} then Some(true)
    else None
  }

  function CopyBytes(p: Packet): Option<bool> {
    if p.data == [] then None
    else if p.fromServer && p.Type() in {'G', 'H'} then Some(true)
    else if p.Type() == 'c' || (!p.fromServer && p.Type() == 'f') then Some(false)
    else None
  }

  /** The fields of `s` are what the bytes of `ps` say about a server that started as `start`. */
  predicate TalliedBytes(start: Server, ps: seq<Packet>, s: Server) {
    && s.syncRequest == start.syncRequest + Count(RequestBytes, ps)
    && s.syncReply == start.syncReply + Count(ReplyBytes, ps)
    && s.deploySync ==
         (if Count(ReadyBytes, ps) >= start.deploySync then 0 else start.deploySync - Count(ReadyBytes, ps))
    && s.isTransaction == LastSaid(TransactionBytes, start.isTransaction, ps)
    && s.isCopy == LastSaid(CopyBytes, start.isCopy, ps)
  }

  lemma TallyBytes(rule: Rule, parses: seq<Byte> -> bool, start: Server, ps: seq<Packet>, s: Server, p: Packet)
    requires TalliedBytes(start, ps, s) && |p.data| >= 5
    ensures TalliedBytes(start, ps + [p], if p.fromServer then ServerCallback(rule, parses)(s, p.data).0
                                          else ClientCallback()(s, p.data).0)
  {
    ServerBytes(rule, parses, s, p.data);
    ClientBytes(s, p.data);
    CountSnoc(RequestBytes, ps, p);
    CountSnoc(ReplyBytes, ps, p);
    CountSnoc(ReadyBytes, ps, p);
    LastSaidSnoc(TransactionBytes, start.isTransaction, ps, p);
    LastSaidSnoc(CopyBytes, start.isCopy, ps, p);
    hide Count, LastSaid, ServerCallback, ClientCallback, BigEndian;
  }

  /** After any packets of both sides, the five fields are what their bytes say. */
  lemma {:induction false} BytesOf(rule: Rule, parses: seq<Byte> -> bool, s: Server, ps: seq<Packet>)
    requires AllPackets(ps)
    ensures TalliedBytes(s, ps, AfterPackets(rule, parses, s, ps))
    decreases |ps|
  {
    if ps != [] {
      var init, p := ps[..|ps| - 1], ps[|ps| - 1];
      assert ps == init + [p];
      hide TalliedBytes, ServerCallback, ClientCallback;
      BytesOf(rule, parses, s, init);
      TallyBytes(rule, parses, s, init, AfterPackets(rule, parses, s, init), p);
    }
  }

  function FromServers(ps: seq<seq<Byte>>): seq<Packet> {
    seq(|ps|, i requires 0 <= i < |ps| => Packet(true, ps[i]))
  }

  /** The bytes are those of one packet, from the type to as far as the length says. */
  predicate OnePacketBytes(data: seq<Byte>) {
    |data| >= 5 && |data| == 1 + BigEndian(data[1..5])
  }

  /** The packet after `before` is one at which the server can be given back. */
  predicate GivesBack(rule: Rule, s: Server, before: seq<Packet>, data: seq<Byte>) {
    && data != [] && data[0] as char == 'Z'
    && rule.transactionPooling && !rule.replication && Count(ReadyBytes, before) >= s.deploySync
    && !LastSaid(TransactionBytes, s.isTransaction, before + [Packet(true, data)])
  }

  lemma {:induction false} AfterFirstPacket(
      rule: Rule, parses: seq<Byte> -> bool, s: Server, data: seq<Byte>, ps: seq<seq<Byte>>)
    ensures AfterPackets(rule, parses, s, FromServers([data] + ps)) ==
            AfterPackets(rule, parses, ServerCallback(rule, parses)(s, data).0, FromServers(ps))
    decreases |ps|
  {
    hide ServerCallback;
    var all := FromServers([data] + ps);
    if ps == [] {
      assert all == [Packet(true, data)] && all[..0] == [];
    } else {
      var n := |ps| - 1;
      assert all[..n + 1] == FromServers([data] + ps[..n]);
      assert FromServers(ps)[..n] == FromServers(ps[..n]);
      assert all[n + 1] == FromServers(ps)[n];
      AfterFirstPacket(rule, parses, s, data, ps[..n]);
    }
  }

  /** What the callback answers to the packet behind the first `i`. */
  function Answer(rule: Rule, parses: seq<Byte> -> bool, s: Server, ps: seq<seq<Byte>>, i: nat): Verdict
    requires i < |ps|
  {
    ServerCallback(rule, parses)(AfterPackets(rule, parses, s, FromServers(ps[..i])), ps[i]).1
  }

  /** The bytes are cut into `ps` and what is left, and only the last packet can stop the run. */
  ghost predicate CutInto(
      rule: Rule, parses: seq<Byte> -> bool, s: Server, c: seq<Byte>, r: Parsed<Server>, ps: seq<seq<Byte>>)
  {
    && c == Joined(ps) + r.rest
    && (forall i :: 0 <= i < |ps| ==> OnePacketBytes(ps[i]))
    && r.state == AfterPackets(rule, parses, s, FromServers(ps))
    && (forall i :: 0 <= i < |ps| ==>
          Answer(rule, parses, s, ps, i).ToStatus() ==
          if i == |ps| - 1 && (r.status.Detached? || r.status.Refused?) then r.status else Ok)
    && (r.status.Detached? || r.status.Refused? ==> ps != [])
  }

  lemma CutNothing(rule: Rule, parses: seq<Byte> -> bool, s: Server, c: seq<Byte>, status: Status)
    requires !status.Detached? && !status.Refused?
    ensures CutInto(rule, parses, s, c, Parsed([], s, status, c), [])
  {
    assert FromServers([]) == [];
    assert [] + c == c;
  }

  lemma CutStop(rule: Rule, parses: seq<Byte> -> bool, s: Server, data: seq<Byte>, rest: seq<Byte>, out: seq<Byte>)
    requires OnePacketBytes(data)
    requires !ServerCallback(rule, parses)(s, data).1.ToStatus().Ok?
    ensures var (s1, v) := ServerCallback(rule, parses)(s, data);
            CutInto(rule, parses, s, data + rest, Parsed(out, s1, v.ToStatus(), rest), [data])
  {
    hide ServerCallback;
    NoPackets(rule, parses, s);
    AfterFirstPacket(rule, parses, s, data, []);
    NoPackets(rule, parses, ServerCallback(rule, parses)(s, data).0);
    assert [data] + [] == [data] && [data][..0] == [] && FromServers([]) == [];
    assert Answer(rule, parses, s, [data], 0) == ServerCallback(rule, parses)(s, data).1;
    assert Joined([data]) == [] + data && [] + data == data;
  }

  lemma CutNext(
      rule: Rule, parses: seq<Byte> -> bool, s: Server, data: seq<Byte>, c: seq<Byte>, r: Parsed<Server>,
      ps: seq<seq<Byte>>, out: seq<Byte>)
    requires OnePacketBytes(data) && ServerCallback(rule, parses)(s, data).1.ToStatus().Ok?
    requires CutInto(rule, parses, ServerCallback(rule, parses)(s, data).0, c, r, ps)
    ensures CutInto(rule, parses, s, data + c, r.(out := out), [data] + ps)
  {
    hide ServerCallback, AfterPackets;
    var all := [data] + ps;
    var s1 := ServerCallback(rule, parses)(s, data).0;
    JoinedCons(data, ps);
    assert data + (Joined(ps) + r.rest) == (data + Joined(ps)) + r.rest;
    AfterFirstPacket(rule, parses, s, data, ps);
    forall i | 0 <= i < |all|
      ensures i == 0 ==> Answer(rule, parses, s, all, i) == ServerCallback(rule, parses)(s, data).1
      ensures i > 0 ==> Answer(rule, parses, s, all, i) == Answer(rule, parses, s1, ps, i - 1)
    {
      if i == 0 {
        assert FromServers(all[..0]) == [];
        assert AfterPackets(rule, parses, s, []) == s by { NoPackets(rule, parses, s); }
      } else {
        assert all[..i] == [data] + ps[..i - 1];
        AfterFirstPacket(rule, parses, s, data, ps[..i - 1]);
      }
    }
  }

  lemma NoPackets(rule: Rule, parses: seq<Byte> -> bool, s: Server)
    ensures AfterPackets(rule, parses, s, []) == s
  {
  }

  /** Any bytes from the server are packets and a rest, and the callback has seen these packets and no more. */
  lemma {:induction false} StreamCut(rule: Rule, parses: seq<Byte> -> bool, s: Server, c: seq<Byte>)
    returns (ps: seq<seq<Byte>>)
    ensures CutInto(rule, parses, s, c, Packets(ServerCallback(rule, parses), s, c), ps)
    decreases |c|
  {
    hide CutInto, ServerCallback, BigEndian, ReadHeader;
    ps := [];
    if |c| < 5 {
      CutNothing(rule, parses, s, c, Ok);
    } else {
      match ReadHeader(c)
      case Broken =>
        CutNothing(rule, parses, s, c, SyncBroken);
      case TooLong =>
        CutNothing(rule, parses, s, c, Oversize);
      case Framed(total) =>
        if |c| < total {
          CutNothing(rule, parses, s, c, Ok);
        } else {
          HeaderBytes(c);
          var data, rest := c[..total], c[total..];
          assert data[1..5] == c[1..5] && data + rest == c;
          var (s1, v) := ServerCallback(rule, parses)(s, data);
          var piece := if v.Forwards() then data else [];
          if v.ToStatus() != Ok {
            CutStop(rule, parses, s, data, rest, piece);
            ps := [data];
          } else {
            var more := StreamCut(rule, parses, s1, rest);
            var r := Packets(ServerCallback(rule, parses), s1, rest);
            CutNext(rule, parses, s, data, rest, r, more, piece + r.out);
            ps := [data] + more;
          }
        }
    }
  }

  /**
   Any bytes from the server: they are whole packets and a rest. The fields are what the bytes of the packets say,
   and the server is given back at the first packet of type `Z`, behind those of the deploys, after which the last
   status byte is `I`.
   */
  lemma StreamOf(rule: Rule, parses: seq<Byte> -> bool, s: Server, c: seq<Byte>) returns (ps: seq<seq<Byte>>)
    ensures var r := Packets(ServerCallback(rule, parses), s, c);
            && c == Joined(ps) + r.rest
            && (forall i :: 0 <= i < |ps| ==> OnePacketBytes(ps[i]))
            && TalliedBytes(s, FromServers(ps), r.state)
            && (r.status.Detached? <==>
                  ps != [] && GivesBack(rule, s, FromServers(ps[..|ps| - 1]), ps[|ps| - 1]))
            && (forall i :: 0 <= i < |ps| - 1 ==> !GivesBack(rule, s, FromServers(ps[..i]), ps[i]))
  {
    var r := Packets(ServerCallback(rule, parses), s, c);
    ps := StreamCut(rule, parses, s, c);
    BytesOf(rule, parses, s, FromServers(ps));
    hide BigEndian, TalliedBytes, Packets, GivesBack, ServerCallback;
    forall i | 0 <= i < |ps|
      ensures Answer(rule, parses, s, ps, i).Detach? <==> GivesBack(rule, s, FromServers(ps[..i]), ps[i])
    {
      AnswerBytes(rule, parses, s, ps, i);
    }
  }

  lemma AnswerBytes(rule: Rule, parses: seq<Byte> -> bool, s: Server, ps: seq<seq<Byte>>, i: nat)
    requires i < |ps| && forall j :: 0 <= j < |ps| ==> OnePacketBytes(ps[j])
    ensures Answer(rule, parses, s, ps, i).Detach? <==> GivesBack(rule, s, FromServers(ps[..i]), ps[i])
  {
    var before := FromServers(ps[..i]);
    var s1 := AfterPackets(rule, parses, s, before);
    BytesOf(rule, parses, s, before);
    ServerBytes(rule, parses, s1, ps[i]);
    LastSaidSnoc(TransactionBytes, s.isTransaction, before, Packet(true, ps[i]));
    hide ServerCallback, BigEndian, Count, LastSaid, AfterPackets;
  }

  // ------------------------------------------------ the callbacks on the server

  /** What the client's messages do does not depend on the rule. */
  const ANY_RULE := Rule(false, false, false, false, false)

  /** The server object that the callbacks update in place; `log` is what they have seen since it was `start`. */
  class ServerState {
    var isTransaction: bool
    var isCopy: bool
    var deploySync: nat
    var syncRequest: nat
    var syncReply: nat
    ghost const start: Server
    ghost var log: seq<Traffic>

    constructor (s: Server)
      ensures Valid() && View() == s && start == s && log == []
    {
      isTransaction, isCopy := s.isTransaction, s.isCopy;
      deploySync, syncRequest, syncReply := s.deploySync, s.syncRequest, s.syncReply;
      start, log := s, [];
    }

    /** Every field is what the history says. */
    ghost predicate Valid()
      reads this
    {
      Tallied(start, log, View())
    }

    function View(): Server
      reads this
    {
      Server(isTransaction, isCopy, deploySync, syncRequest, syncReply)
    }

    method Ready(m: BackendMessage)
      requires m.ReadyForQuery?
      modifies this`isTransaction, this`syncReply
      ensures View() == BackendReady(old(View()), m)
      ensures syncReply == old(syncReply) + (if m.wellFormed then 1 else 0)
      ensures isTransaction == match TransactionSaid(FromServer(m))
                               case Some(said) => said
                               case None => old(isTransaction)
    {
      if !m.wellFormed {
        return;
      }
      if m.status.Idle? {
        isTransaction := false;
      } else if m.status.Open? || m.status.Failed? {
        isTransaction := true;
      }
      syncReply := syncReply + 1;
    }

    /** A packet from the server. */
    method RemoteServer(rule: Rule, m: BackendMessage) returns (verdict: Verdict)
      requires Valid()
      modifies this
      ensures Valid() && log == old(log) + [FromServer(m)]
      ensures (View(), verdict) == OnServerMessage(rule, old(View()), m)
      ensures verdict.Refuse? <==> m == ParameterStatus(false)
      ensures verdict.Skip? <==> m != ParameterStatus(false) && Count(IsReady, old(log)) < start.deploySync
      ensures verdict.Detach? <==>
                m.Ready() && Count(IsReady, old(log)) >= start.deploySync &&
                rule.transactionPooling && !rule.replication &&
                !LastSaid(TransactionSaid, start.isTransaction, log)
    {
      TallySnoc(rule, start, log, View(), FromServer(m));
      hide Count, LastSaid, BackendReady;
      log := log + [FromServer(m)];
      var isDeploy := deploySync > 0;
      match m {
        case ParameterStatus(parses) =>
          if !parses {
            return Refuse(READ_ERROR);
          }
        case CopyIn => isCopy := true;
        case CopyOut => isCopy := true;
        case CopyDone => isCopy := false;
        case ReadyForQuery(_, _) =>
          Ready(m);
          if isDeploy {
            deploySync := deploySync - 1;
          }
        case _ =>
      }
      if isDeploy {
        return Skip;
      }
      if m.Ready() && rule.transactionPooling && !isTransaction && !rule.replication {
        return Detach;
      }
      return Pass;
    }

    /** A packet from the client. */
    method RemoteClient(kind: Byte) returns (verdict: Verdict)
      requires Valid()
      modifies this`isCopy, this`syncRequest, this`log
      ensures Valid() && log == old(log) + [FromClient(kind)]
      ensures (View(), verdict) == OnClientMessage(old(View()), kind)
      ensures verdict == if kind as char == 'X' then Refuse(STOP) else Pass
    {
      TallySnoc(ANY_RULE, start, log, View(), FromClient(kind));
      hide Count, LastSaid;
      log := log + [FromClient(kind)];
      if kind as char == 'X' {
        return Refuse(STOP);
      }
      if kind as char in {'c', 'f'} {
        isCopy := false;
      } else if Counted(kind) {
        syncRequest := syncRequest + 1;
      }
      return Pass;
    }
  }
}

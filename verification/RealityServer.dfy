/** The server's replay table and its decision on a ClientHello, over whole runs. Clock in nanoseconds. */
module RealityServer {
  import opened ByteSeq
  import opened TlsHello
  import opened RealityHello
  import opened RealityAuth
  import RealityHelloProofs

  const MAX_SIZE := 10000
  const SECOND := 1_000_000_000

  type Table = map<Bytes, int>

  // ---- The replay table ----

  /** cleanup at time `now`: entries strictly older than the window go. */
  function Cleaned(seen: Table, window: int, now: int): Table
  {
    map k | k in seen && seen[k] >= now - window :: seen[k]
  }

  /** Check reads the clock when it stores the token and again when it cleans up. */
  function CheckStep(seen: Table, window: int, token: Bytes, at: int, later: int): (bool, Table)
  {
    if token in seen then (false, seen)
    else
      var seen' := seen[token := at];
      (true, if |seen'| > MAX_SIZE then Cleaned(seen', window, later) else seen')
  }

  class ReplayProtection {
    var seen: Table
    const window: int

    constructor (window: int)
      ensures this.window == window && seen == map[]
    {
      this.window, seen := window, map[];
    }

    method Check(token: Bytes, at: int, later: int) returns (fresh': bool)
      modifies this
      ensures (fresh', seen) == CheckStep(old(seen), window, token, at, later)
      ensures fresh' <==> token !in old(seen)
      ensures !fresh' ==> seen == old(seen)
      ensures fresh' && |old(seen)| < 10000 ==> seen == old(seen)[token := at]
      ensures fresh' && |old(seen)| >= 10000 ==> forall k ::
        && (k in seen <==>
              if k == token then at >= later - window else k in old(seen) && old(seen)[k] >= later - window)
        && (k in seen ==> seen[k] == if k == token then at else old(seen)[k])
    {
      if token in seen { return false; }
      seen := seen[token := at];
      if |seen| > MAX_SIZE {
        Cleanup(later);
      }
      return true;
    }

    /** One pass over the keys, deleting as it goes. */
    method Cleanup(now: int)
      modifies this
      ensures seen == Cleaned(old(seen), window, now)
      ensures forall k :: k in seen <==> k in old(seen) && old(seen)[k] >= now - window
      ensures forall k :: k in seen ==> seen[k] == old(seen)[k]
    {
      var cutoff := now - window;
      var todo := seen.Keys;
      ghost var start := seen;
      while todo != {}
        invariant todo <= start.Keys
        invariant forall k :: k in seen <==> k in start && (k in todo || start[k] >= cutoff)
        invariant forall k :: k in seen ==> seen[k] == start[k]
        decreases |todo|
      {
        var k :| k in todo;
        todo := todo - {k};
        if seen[k] < cutoff {
          seen := seen - {k};
        }
      }
    }
  }

  datatype Call = Call(token: Bytes, at: int, later: int)

  /** The calls happen one after the other on a clock that does not run backwards. */
  ghost predicate Serial(calls: seq<Call>)
  {
    && (forall i :: 0 <= i < |calls| ==> calls[i].at <= calls[i].later)
    && (forall i, j :: 0 <= i < j < |calls| ==> calls[i].later <= calls[j].at)
  }

  /** The table when call m of the run begins. */
  function TableAt(seen: Table, window: int, calls: seq<Call>, m: nat): Table
    requires m <= |calls|
  {
    if m == 0 then seen
    else
      var c := calls[m - 1];
      CheckStep(TableAt(seen, window, calls, m - 1), window, c.token, c.at, c.later).1
  }

  /** Call i of the run is told "fresh". */
  predicate Fresh(seen: Table, window: int, calls: seq<Call>, i: nat)
    requires i < |calls|
  {
    calls[i].token !in TableAt(seen, window, calls, i)
  }

  /** Call m stores a token and the table is then large enough to be cleaned up. */
  predicate Sweeps(seen: Table, window: int, calls: seq<Call>, m: nat)
    requires m < |calls|
  {
    Fresh(seen, window, calls, m) && |TableAt(seen, window, calls, m)| + 1 > MAX_SIZE
  }

  /** A cleanup from call i on, before call j, later than the window after call i stored its token. */
  ghost predicate SweptBetween(seen: Table, window: int, calls: seq<Call>, i: nat, j: nat)
    requires i <= j <= |calls| && i < |calls|
  {
    exists m: nat :: i <= m < j && Sweeps(seen, window, calls, m) && calls[i].at < calls[m].later - window
  }

  /** No call strictly between i and j stores the token of call i again. */
  ghost predicate StoredOnce(seen: Table, window: int, calls: seq<Call>, i: nat, j: nat)
    requires i < j <= |calls|
  {
    forall k: nat :: i < k < j && calls[k].token == calls[i].token ==> !Fresh(seen, window, calls, k)
  }

  /** One more call: the table keeps a stored token, with its time, unless that call sweeps it out. */
  lemma StepKeeps(seen: Table, window: int, calls: seq<Call>, m: nat, token: Bytes)
    requires m < |calls| && (calls[m].token == token ==> !Fresh(seen, window, calls, m))
    ensures var t, t' := TableAt(seen, window, calls, m), TableAt(seen, window, calls, m + 1);
      token in t' <==> token in t && !(Sweeps(seen, window, calls, m) && t[token] < calls[m].later - window)
    ensures var t, t' := TableAt(seen, window, calls, m), TableAt(seen, window, calls, m + 1);
      token in t' ==> token in t && t'[token] == t[token]
  {
  }

  lemma StepStores(seen: Table, window: int, calls: seq<Call>, i: nat)
    requires i < |calls| && Fresh(seen, window, calls, i)
    ensures var t', c := TableAt(seen, window, calls, i + 1), calls[i];
      && (c.token in t' <==> !(Sweeps(seen, window, calls, i) && c.at < c.later - window))
      && (c.token in t' ==> t'[c.token] == c.at)
  {
  }

  /** A stored token is still there at call j exactly if nothing swept it out in between. */
  lemma {:induction false} HeldIff(seen: Table, window: int, calls: seq<Call>, i: nat, j: nat)
    requires i < j <= |calls| && Fresh(seen, window, calls, i) && StoredOnce(seen, window, calls, i, j)
    ensures var t, token := TableAt(seen, window, calls, j), calls[i].token;
      && (token in t <==> !SweptBetween(seen, window, calls, i, j))
      && (token in t ==> t[token] == calls[i].at)
    decreases j
  {
    hide TableAt, Fresh, Sweeps;
    if j == i + 1 {
      StepStores(seen, window, calls, i);
    } else {
      HeldIff(seen, window, calls, i, j - 1);
      StepKeeps(seen, window, calls, j - 1, calls[i].token);
    }
  }

  /**
    A stored token is told "fresh" again at call j exactly when a cleanup later than the window after
    it was stored lies in between.
   */
  lemma FreshAgainIff(seen: Table, window: int, calls: seq<Call>, i: nat, j: nat)
    requires i < j < |calls| && calls[i].token == calls[j].token
    requires Fresh(seen, window, calls, i) && StoredOnce(seen, window, calls, i, j)
    ensures Fresh(seen, window, calls, j) <==> SweptBetween(seen, window, calls, i, j)
  {
    hide TableAt, Sweeps;
    HeldIff(seen, window, calls, i, j);
  }

  /** The last call before j, from i on, that stored the token. */
  lemma {:induction false} LastStored(seen: Table, window: int, calls: seq<Call>, i: nat, j: nat) returns (k: nat)
    requires i < j <= |calls| && Fresh(seen, window, calls, i)
    ensures i <= k < j && calls[k].token == calls[i].token && Fresh(seen, window, calls, k)
    ensures StoredOnce(seen, window, calls, k, j)
    decreases j
  {
    hide Fresh;
    if j == i + 1 || (calls[j - 1].token == calls[i].token && Fresh(seen, window, calls, j - 1)) {
      return j - 1;
    }
    k := LastStored(seen, window, calls, i, j - 1);
  }

  /**
    Over every serial run, two accepting checks of the same token are more than the window apart,
    whatever other tokens trigger cleanups in between.
   */
  lemma ReplaysFarApart(seen: Table, window: int, calls: seq<Call>, i: nat, j: nat)
    requires Serial(calls) && i < j < |calls| && calls[i].token == calls[j].token
    requires Fresh(seen, window, calls, i) && Fresh(seen, window, calls, j)
    ensures calls[i].at + window < calls[j].at
  {
    hide Fresh, Sweeps;
    var k := LastStored(seen, window, calls, i, j);
    FreshAgainIff(seen, window, calls, k, j);
    var m: nat :| k <= m < j && Sweeps(seen, window, calls, m) && calls[k].at < calls[m].later - window;
  }

  /** The table holds only what it held before and what was offered since. */
  lemma {:induction false} KeysAreOffered(seen: Table, window: int, calls: seq<Call>, m: nat, token: Bytes)
    requires m <= |calls| && token in TableAt(seen, window, calls, m)
    ensures token in seen || exists k: nat :: k < m && calls[k].token == token
  {
    if m > 0 && token != calls[m - 1].token {
      KeysAreOffered(seen, window, calls, m - 1, token);
    }
  }

  /** A token never offered before is always fresh. */
  lemma NewIsFresh(seen: Table, window: int, calls: seq<Call>, i: nat)
    requires i < |calls| && calls[i].token !in seen
    requires forall j: nat :: j < i ==> calls[j].token != calls[i].token
    ensures Fresh(seen, window, calls, i)
  {
    hide TableAt;
    if !Fresh(seen, window, calls, i) {
      KeysAreOffered(seen, window, calls, i, calls[i].token);
    }
  }

  // ---- The decision ----

  datatype Config = Config(crypto: Crypto, privateKey: Bytes, shortIds: seq<Bytes>)

  /** When the table stored the token, when it cleaned up, and when the token was verified. */
  datatype Times = Times(at: int, later: int, verified: nat)

  function Unix(ns: nat): nat { ns / SECOND }

  function TokenOk(cfg: Config, p: Parsed, verified: nat): bool
    requires p.Parsed?
  {
    Verify(cfg.crypto, p.sessionId, p.key, cfg.privateKey, cfg.shortIds, 120, Unix(verified)).Some?
  }

  class Server {
    const cfg: Config
    const replay: ReplayProtection

    constructor (cfg: Config)
      ensures this.cfg == cfg && replay.window == 120 * SECOND && replay.seen == map[] && fresh(replay)
    {
      this.cfg := cfg;
      replay := new ReplayProtection(120 * SECOND);
    }

    /** Parse, then the replay table, then the token: a hello that does not parse leaves no trace. */
    method VerifyClientHello(raw: Bytes, t: Times) returns (ok: bool)
      modifies replay
      ensures match Parse(raw)
        case Rejected(_) => !ok && replay.seen == old(replay.seen)
        case Parsed(sessionId, key) =>
          var (fresh', seen) := CheckStep(old(replay.seen), replay.window, sessionId, t.at, t.later);
          replay.seen == seen && (ok <==> fresh' && TokenOk(cfg, Parse(raw), t.verified))
    {
      var p := ParseClientHelloAuth(raw);
      if p.Rejected? { return false; }
      ParsedSizes(raw);
      if |p.sessionId| != AUTH_TOKEN_SIZE { return false; }
      var unseen := replay.Check(p.sessionId, t.at, t.later);
      if !unseen { return false; }
      var accepted, _ :=
        VerifyAuthToken(cfg.crypto, p.sessionId, p.key, cfg.privateKey, cfg.shortIds, 120, Unix(t.verified));
      return accepted;
    }
  }

  lemma ParsedSizes(raw: Bytes)
    requires Parse(raw).Parsed?
    ensures |Parse(raw).sessionId| == AUTH_TOKEN_SIZE && |Parse(raw).key| == 32
  {
  }

  /**
    A client's hello carrying the token it built and its ephemeral key is accepted, if and only if
    the server has not seen that session id and the clocks are within two minutes.
   */
  lemma HonestHelloAccepted(cfg: Config, seen: Table, h: ClientHello, i: nat, k: nat, ephemeral: Bytes, shortId: Bytes,
                            padding: Bytes, builtAt: nat, t: Times)
    requires Lawful(cfg.crypto) && |padding| == 4 && shortId in cfg.shortIds && shortId != []
    requires Build(cfg.crypto, ephemeral, cfg.crypto.publicKey(cfg.privateKey), shortId, builtAt, padding).Some?
    requires Valid(h) && RealityHelloProofs.OffersKey(h, i, k)
    requires h.extensions[i].shares[k].key == cfg.crypto.publicKey(ephemeral)
    requires h.sessionId ==
      Serialize(Build(cfg.crypto, ephemeral, cfg.crypto.publicKey(cfg.privateKey), shortId, builtAt, padding).value)
    ensures var p := Parse(Record(Handshake(h), []));
      && p == Parsed(h.sessionId, cfg.crypto.publicKey(ephemeral))
      && (TokenOk(cfg, p, t.verified) <==>
            -120 <= t.verified / 1_000_000_000 % 0x1_0000_0000 - builtAt % 0x1_0000_0000 <= 120)
      && (CheckStep(seen, 120 * SECOND, p.sessionId, t.at, t.later).0 <==> h.sessionId !in seen)
  {
    hide Parse, Record, Handshake, Verify, Serialize, Build, Valid;
    var token := Build(cfg.crypto, ephemeral, cfg.crypto.publicKey(cfg.privateKey), shortId, builtAt, padding).value;
    BuiltTokenVerifies(cfg.crypto, ephemeral, cfg.privateKey, shortId, padding, cfg.shortIds, 120, builtAt,
                       Unix(t.verified));
    SerializedFields(token);
    RealityHelloProofs.AuthFieldsRecovered(h, i, k, []);
  }

  lemma LateSecond(a: nat, v: nat, ts: nat)
    requires a + 120 * SECOND < v && Unix(v) <= ts + 120
    ensures Unix(a) <= ts
  {
  }

  /**
    Replay protection as a whole: if a token the table has stored once passes both the table and
    the verification later in a serial run, then its timestamp was not yet past when it was first
    stored. So a token whose second had already passed is accepted at most once (until 32-bit
    seconds run out).
   */
  lemma AcceptedAgainOnlyIfAhead(cfg: Config, seen: Table, calls: seq<Call>, i: nat, j: nat, token: Bytes, key: Bytes,
                                 verified: nat)
    requires Serial(calls) && i < j < |calls| && calls[i].token == token == calls[j].token && |token| == TOKEN_SIZE
    requires Fresh(seen, 120 * SECOND, calls, i) && Fresh(seen, 120 * SECOND, calls, j)
    requires TokenOk(cfg, Parsed(token, key), verified)
    requires 0 <= calls[i].at && calls[j].later <= verified && Unix(verified) < 0x1_0000_0000
    ensures Unix(calls[i].at) <= U32At(token, 24)
  {
    hide Verify, Fresh, U16, Unix;
    ReplaysFarApart(seen, 120 * SECOND, calls, i, j);
    AcceptedByMac(cfg.crypto, token, key, cfg.privateKey, cfg.shortIds, 120, Unix(verified));
    LateSecond(calls[i].at, verified, U32At(token, 24));
  }

  // ---- A run in which a token stamped ahead of the clock is accepted twice ----

  const JUST_LATE := 120 * SECOND + 1

  /** Pairwise different 32-byte tokens, none of them `token`. */
  function Filler(token: Bytes, n: nat): (r: Bytes)
    requires |token| == TOKEN_SIZE
    ensures |r| == TOKEN_SIZE
  {
    Be32(n) + seq(27, _ => 0) + [Low((token[31] as int) + 1)]
  }

  lemma FillersDiffer(token: Bytes, m: nat, n: nat)
    requires |token| == TOKEN_SIZE && m < n < 0x1_0000_0000
    ensures Filler(token, m) != Filler(token, n) && Filler(token, m) != token && Filler(token, n) != token
  {
    hide Be32, U16;
    Be32Value(m);
    Be32Value(n);
    assert Filler(token, m)[..4] == Be32(m) && Filler(token, n)[..4] == Be32(n);
    assert Filler(token, m)[31] != token[31] && Filler(token, n)[31] != token[31];
  }

  /** The token, 10000 others just past the window, and the token again. */
  function LateRun(token: Bytes): (calls: seq<Call>)
    requires |token| == TOKEN_SIZE
    ensures |calls| == MAX_SIZE + 2
  {
    seq(MAX_SIZE + 2, i requires 0 <= i =>
      if i == 0 then Call(token, 0, 0)
      else Call(if i <= MAX_SIZE then Filler(token, i) else token, JUST_LATE, JUST_LATE))
  }

  /** Until the table is full every token of the run is stored and none removed. */
  lemma {:induction false} LateRunFills(token: Bytes, m: nat)
    requires |token| == TOKEN_SIZE && m <= MAX_SIZE
    ensures var t := TableAt(map[], 120 * SECOND, LateRun(token), m);
      && |t| == m
      && (forall k: nat :: m <= k <= MAX_SIZE ==> LateRun(token)[k].token !in t)
  {
    hide Filler;
    if m > 0 {
      LateRunFills(token, m - 1);
      var t := TableAt(map[], 120 * SECOND, LateRun(token), m - 1);
      var c := LateRun(token)[m - 1];
      assert c.token !in t;
      assert |t[c.token := c.at]| == m;
      forall k: nat | m <= k <= MAX_SIZE ensures LateRun(token)[k].token != c.token {
        FillersDiffer(token, m - 1, k);
      }
    }
  }

  /** The table tells "fresh" to both the first and the last call of that run. */
  lemma LateRunFreshTwice(token: Bytes)
    requires |token| == TOKEN_SIZE
    ensures var calls := LateRun(token);
      && Serial(calls) && calls[0] == Call(token, 0, 0) && calls[MAX_SIZE + 1] == Call(token, JUST_LATE, JUST_LATE)
      && Fresh(map[], 120 * SECOND, calls, 0) && Fresh(map[], 120 * SECOND, calls, MAX_SIZE + 1)
  {
    hide Filler, Sweeps;
    var calls := LateRun(token);
    LateRunFills(token, MAX_SIZE);
    SweepsAt(calls, MAX_SIZE);
    forall k: nat | 0 < k < MAX_SIZE + 1 ensures calls[k].token != token {
      FillersDiffer(token, k, k + 1);
    }
    assert SweptBetween(map[], 120 * SECOND, calls, 0, MAX_SIZE + 1);
    FreshAgainIff(map[], 120 * SECOND, calls, 0, MAX_SIZE + 1);
  }

  lemma SweepsAt(calls: seq<Call>, m: nat)
    requires m < |calls| && |TableAt(map[], 120 * SECOND, calls, m)| == MAX_SIZE
    requires calls[m].token !in TableAt(map[], 120 * SECOND, calls, m)
    ensures Sweeps(map[], 120 * SECOND, calls, m)
  {
  }

  lemma BuiltTokenOk(cfg: Config, ephemeral: Bytes, shortId: Bytes, padding: Bytes, now: nat)
    requires Lawful(cfg.crypto) && |padding| == 4 && shortId in cfg.shortIds && shortId != []
    requires Build(cfg.crypto, ephemeral, cfg.crypto.publicKey(cfg.privateKey), shortId, 120, padding).Some?
    requires Unix(now) <= 120
    ensures var built := Build(cfg.crypto, ephemeral, cfg.crypto.publicKey(cfg.privateKey), shortId, 120, padding);
      WellFormed(built.value) && TokenOk(cfg, Parsed(Serialize(built.value), cfg.crypto.publicKey(ephemeral)), now)
  {
    hide Verify, Serialize, Build;
    BuiltTokenVerifies(cfg.crypto, ephemeral, cfg.privateKey, shortId, padding, cfg.shortIds, 120, 120, Unix(now));
  }

  /**
    The bound of AcceptedAgainOnlyIfAhead is met: for any keys, a token built with the stamp 120 passes
    both the table and the verification at time 0 and again just past the window.
   */
  lemma AheadTokenAcceptedTwice(cfg: Config, ephemeral: Bytes, shortId: Bytes, padding: Bytes)
    requires Lawful(cfg.crypto) && |padding| == 4 && shortId in cfg.shortIds && shortId != []
    requires Build(cfg.crypto, ephemeral, cfg.crypto.publicKey(cfg.privateKey), shortId, 120, padding).Some?
    ensures var built := Build(cfg.crypto, ephemeral, cfg.crypto.publicKey(cfg.privateKey), shortId, 120, padding);
      var token, key := Serialize(built.value), cfg.crypto.publicKey(ephemeral);
      && |token| == TOKEN_SIZE
      && var calls := LateRun(token);
      && Serial(calls) && calls[0].token == token == calls[MAX_SIZE + 1].token
      && Fresh(map[], 120 * SECOND, calls, 0) && TokenOk(cfg, Parsed(token, key), calls[0].later)
      && Fresh(map[], 120 * SECOND, calls, MAX_SIZE + 1)
      && TokenOk(cfg, Parsed(token, key), calls[MAX_SIZE + 1].later)
  {
    hide Verify, Serialize, Build, Fresh, Serial, LateRun, TokenOk;
    BuiltTokenOk(cfg, ephemeral, shortId, padding, 0);
    BuiltTokenOk(cfg, ephemeral, shortId, padding, JUST_LATE);
    var built := Build(cfg.crypto, ephemeral, cfg.crypto.publicKey(cfg.privateKey), shortId, 120, padding).value;
    SerializedFields(built);
    LateRunFreshTwice(Serialize(built));
  }
}

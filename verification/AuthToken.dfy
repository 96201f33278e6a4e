/** The login token from the minted ticket, through the proxy that learns it and wraps every datagram with it,
    to the server's check of each record. */
module AuthToken {
  import opened Bytes

  const TOKEN_LEN: nat := 16
  const WRAPPER_LEN: nat := 17
  const HEADER_LEN: nat := 12
  const PLAYER_ID_AT: nat := 4
  const VERSION: byte := 1
  const DASH: byte := 45
  const MAX_DATAGRAM: nat := 65536  // the proxy's datagram buffer
  const MAX_RECORD: nat := 25000    // the server's receive buffer

  datatype Option<T> = None | Some(value: T)

  datatype Verdict = Accept(inner: seq<byte>) | DropShortOrOversize | DropBadVersion | DropTokenMismatch

  // ----- Hexadecimal -----

  function HexDigit(n: nat): byte
    requires n < 16
  {
    if n < 10 then 48 + n else 87 + n
  }

  /** Two lower-case digits a byte, high half first. */
  function Hex(bytes: seq<byte>): (s: seq<byte>)
    ensures |s| == 2 * |bytes|
  {
    if bytes == [] then [] else [HexDigit(bytes[0] / 16), HexDigit(bytes[0] % 16)] + Hex(bytes[1..])
  }

  /** Either case is read; -1 for anything else. */
  function DigitValue(c: byte): (v: int)
    ensures -1 <= v < 16
  {
    if 48 <= c <= 57 then c - 48
    else if 97 <= c <= 102 then c - 87
    else if 65 <= c <= 70 then c - 55
    else -1
  }

  predicate IsDigit(c: byte) { DigitValue(c) >= 0 }

  function PairValue(hi: byte, lo: byte): byte
    requires IsDigit(hi) && IsDigit(lo)
  {
    16 * DigitValue(hi) + DigitValue(lo)
  }

  /** What a string of hexadecimal digits encodes. */
  function Unhex(s: seq<byte>): (bytes: seq<byte>)
    requires |s| % 2 == 0 && forall c <- s :: IsDigit(c)
    ensures |bytes| == |s| / 2
  {
    if s == [] then [] else [PairValue(s[0], s[1])] + Unhex(s[2..])
  }

  lemma DigitBack(n: nat)
    requires n < 16
    ensures IsDigit(HexDigit(n)) && DigitValue(HexDigit(n)) == n && HexDigit(n) != DASH && HexDigit(n) != 0
  {
  }

  lemma {:induction false} HexRoundTrip(bytes: seq<byte>)
    ensures forall c <- Hex(bytes) :: IsDigit(c) && c != DASH && c != 0
    ensures Unhex(Hex(bytes)) == bytes
  {
    if bytes != [] {
      HexRoundTrip(bytes[1..]);
      DigitBack(bytes[0] / 16);
      DigitBack(bytes[0] % 16);
      assert Hex(bytes)[2..] == Hex(bytes[1..]);
    }
  }

  // ----- The ticket -----

  function Ticket(username: seq<byte>, token: seq<byte>): seq<byte> { username + [DASH] + Hex(token) }

  /** A C string: the bytes before the first NUL. */
  function CString(buffer: seq<byte>): (s: seq<byte>)
    ensures 0 !in s && |s| <= |buffer| && s == buffer[..|s|]
    ensures |s| < |buffer| ==> buffer[|s|] == 0
  {
    if buffer == [] || buffer[0] == 0 then [] else [buffer[0]] + CString(buffer[1..])
  }

  /** Where the last `c` is; the length if there is none. */
  function LastAt(s: seq<byte>, c: byte): (i: nat)
    ensures i <= |s| && (i < |s| ==> s[i] == c) && (forall k :: i < k < |s| ==> s[k] != c)
    ensures i == |s| <==> c !in s
  {
    if s == [] then 0
    else if s[|s| - 1] == c then |s| - 1
    else
      var i := LastAt(s[..|s| - 1], c);
      assert s == s[..|s| - 1] + [s[|s| - 1]];
      if i == |s| - 1 then |s| else i
  }

  predicate IsToken(suffix: seq<byte>) { |suffix| == 2 * TOKEN_LEN && forall c <- suffix :: IsDigit(c) }

  /** The token a ticket string teaches the proxy. */
  function Learned(ticket: seq<byte>): (token: Option<seq<byte>>)
    ensures token.Some? ==> |token.value| == TOKEN_LEN
  {
    var i := LastAt(ticket, DASH);
    if i < |ticket| && IsToken(ticket[i + 1..]) then Some(Unhex(ticket[i + 1..])) else None
  }

  /** The account name the proxy keeps: everything before the last dash. */
  function AccountName(ticket: seq<byte>): seq<byte> { ticket[..LastAt(ticket, DASH)] }

  lemma {:induction false} CStringWhole(s: seq<byte>, rest: seq<byte>)
    requires 0 !in s
    ensures CString(s + [0] + rest) == s
  {
    if s != [] {
      CStringWhole(s[1..], rest);
      assert (s + [0] + rest)[1..] == s[1..] + [0] + rest;
    }
  }

  lemma {:induction false} CStringCut(s: seq<byte>, rest: seq<byte>)
    requires 0 in s
    ensures CString(s + rest) == CString(s)
  {
    if s[0] != 0 {
      CStringCut(s[1..], rest);
      assert (s + rest)[1..] == s[1..] + rest;
    }
  }

  lemma LastDash(username: seq<byte>, hex: seq<byte>)
    requires DASH !in hex
    ensures LastAt(username + [DASH] + hex, DASH) == |username|
  {
    hide LastAt;
    var s := username + [DASH] + hex;
    assert s[|username|] == DASH;
    forall k | |username| < k < |s|
      ensures s[k] != DASH
    {
      assert s[k] == hex[k - |username| - 1];
    }
  }

  /** From every ticket for a username a C string can hold, dashes included, the proxy learns exactly the minted
      bytes and keeps exactly the username. */
  lemma TicketLearned(username: seq<byte>, token: seq<byte>, rest: seq<byte>)
    requires 0 !in username && |token| == TOKEN_LEN
    ensures var ticket := CString(Ticket(username, token) + [0] + rest);
      Learned(ticket) == Some(token) && AccountName(ticket) == username
  {
    hide LastAt, Hex, Unhex, CString;
    HexRoundTrip(token);
    CStringWhole(Ticket(username, token), rest);
    LastDash(username, Hex(token));
    assert Ticket(username, token)[|username| + 1..] == Hex(token);
  }

  /** A username with a NUL in it is cut there, so the token is learnt only if the part before the NUL happens to
      be a ticket for it already. */
  lemma TicketLearnedExactly(username: seq<byte>, token: seq<byte>, rest: seq<byte>)
    requires |token| == TOKEN_LEN
    ensures Learned(CString(Ticket(username, token) + [0] + rest)) == Some(token) <==>
      0 !in username || Learned(CString(username)) == Some(token)
  {
    if 0 !in username {
      TicketLearned(username, token, rest);
    } else {
      var tail := [DASH] + Hex(token) + [0] + rest;
      assert Ticket(username, token) + [0] + rest == username + tail;
      CStringCut(username, tail);
    }
  }

  /** The first dash, by which the account store splits a ticket it persists. */
  function FirstAt(s: seq<byte>, c: byte): (i: nat)
    ensures i <= |s| && (i < |s| ==> s[i] == c) && forall k :: 0 <= k < i ==> s[k] != c
  {
    if s == [] || s[0] == c then 0 else 1 + FirstAt(s[1..], c)
  }

  /** Splitting a minted ticket at its first dash and at its last agree exactly when the username has no dash. */
  lemma SplitsAgree(username: seq<byte>, token: seq<byte>)
    ensures var ticket := Ticket(username, token);
      FirstAt(ticket, DASH) == LastAt(ticket, DASH) <==> DASH !in username
  {
    hide LastAt, FirstAt, Hex;
    var ticket := Ticket(username, token);
    HexRoundTrip(token);
    LastDash(username, Hex(token));
    assert ticket[|username|] == DASH;
    if DASH in username {
      var k :| 0 <= k < |username| && username[k] == DASH;
      assert ticket[k] == DASH;
    } else {
      assert forall k :: 0 <= k < |username| ==> ticket[k] == username[k];
    }
  }

  // ----- The wrapper -----

  /** The datagram on the wire: a version, the token or zeros, the datagram. Too long a one is dropped. */
  function Wrapped(token: Option<seq<byte>>, datagram: seq<byte>): Option<seq<byte>> {
    if |datagram| > MAX_DATAGRAM then None
    else Some([VERSION] + (if token.Some? then token.value else Zeros(TOKEN_LEN)) + datagram)
  }

  /** Little-endian signed 32 bits. */
  function Int32(b0: byte, b1: byte, b2: byte, b3: byte): int {
    var u := b0 + 0x100 * b1 + 0x1_0000 * b2 + 0x100_0000 * b3;
    if u < 0x8000_0000 then u else u - 0x1_0000_0000
  }

  /** The player a datagram claims to come from. */
  function PlayerId(datagram: seq<byte>): int
    requires |datagram| >= HEADER_LEN
  {
    Int32(datagram[PLAYER_ID_AT], datagram[PLAYER_ID_AT + 1], datagram[PLAYER_ID_AT + 2], datagram[PLAYER_ID_AT + 3])
  }

  /** Tokens bound to players at character select. */
  type Bindings = m: map<int, seq<byte>> | forall p :: p in m ==> |m[p]| == TOKEN_LEN

  predicate Vouched(bound: Bindings, datagram: seq<byte>, token: seq<byte>)
    requires |datagram| >= HEADER_LEN
  {
    var p := PlayerId(datagram);
    p == 0 || (p in bound && bound[p] == token)
  }

  function Checked(rec: seq<byte>, maxBuffer: nat, bound: Bindings): Verdict {
    if |rec| < WRAPPER_LEN + HEADER_LEN || |rec| >= maxBuffer then DropShortOrOversize
    else if rec[0] != VERSION then DropBadVersion
    else if Vouched(bound, rec[WRAPPER_LEN..], rec[1..WRAPPER_LEN]) then Accept(rec[WRAPPER_LEN..])
    else DropTokenMismatch
  }

  lemma WrapParts(token: seq<byte>, datagram: seq<byte>)
    requires |token| == TOKEN_LEN
    ensures var rec := [VERSION] + token + datagram;
      |rec| == WRAPPER_LEN + |datagram| && rec[0] == VERSION
      && rec[1..WRAPPER_LEN] == token && rec[WRAPPER_LEN..] == datagram
  {
  }

  predicate LegalSize(datagram: seq<byte>) { 12 <= |datagram| < 24983 }

  /** From the minted ticket to the server: a datagram of any content arrives unchanged exactly when its size is
      legal and its player is none or bound to the minted token. */
  lemma Pipeline(username: seq<byte>, token: seq<byte>, rest: seq<byte>, datagram: seq<byte>, bound: Bindings)
    requires 0 !in username && |token| == TOKEN_LEN
    ensures var sent := Wrapped(Learned(CString(Ticket(username, token) + [0] + rest)), datagram);
      && (sent.None? <==> |datagram| > MAX_DATAGRAM)
      && (sent.Some? && Checked(sent.value, MAX_RECORD, bound) == Accept(datagram) <==>
            LegalSize(datagram) && Vouched(bound, datagram, token))
      && (sent.Some? && LegalSize(datagram) && !Vouched(bound, datagram, token) ==>
            Checked(sent.value, MAX_RECORD, bound) == DropTokenMismatch)
  {
    hide Learned, Ticket;
    TicketLearned(username, token, rest);
    WrapParts(token, datagram);
  }

  /** Before the proxy has learnt a token, a player's datagram passes only against a token of zeros. */
  lemma Unlearned(datagram: seq<byte>, bound: Bindings)
    requires LegalSize(datagram) && PlayerId(datagram) != 0
    ensures Wrapped(None, datagram).Some? && (Checked(Wrapped(None, datagram).value, MAX_RECORD, bound).Accept? <==>
      PlayerId(datagram) in bound && bound[PlayerId(datagram)] == Zeros(TOKEN_LEN))
  {
    WrapParts(Zeros(TOKEN_LEN), datagram);
  }

  // ----- What is on the wire -----

  /** Minted digits are lower-case, two a byte, the high half first. */
  lemma {:induction false} HexText(bytes: seq<byte>, i: nat)
    requires i < |bytes|
    ensures Hex(bytes)[2 * i] as int == "0123456789abcdef"[bytes[i] / 16] as int
    ensures Hex(bytes)[2 * i + 1] as int == "0123456789abcdef"[bytes[i] % 16] as int
  {
    if i == 0 {
      DigitText(bytes[0] / 16);
      DigitText(bytes[0] % 16);
    } else {
      HexText(bytes[1..], i - 1);
    }
  }

  lemma DigitText(n: nat)
    requires n < 16
    ensures HexDigit(n) as int == "0123456789abcdef"[n] as int
  {
  }

  /** A ticket is the username, a dash and 32 digits. */
  lemma TicketBytes(username: seq<byte>, token: seq<byte>)
    requires |token| == 16
    ensures var ticket := Ticket(username, token);
      && |ticket| == |username| + 33 && ticket[..|username|] == username && ticket[|username|] as int == '-' as int
      && ticket[|username| + 1..] == Hex(token)
  {
    hide Hex;
  }

  /** The proxy reads either case, and nothing else. */
  lemma DigitsRead(c: byte)
    ensures forall n :: 0 <= n < 16 ==>
      (DigitValue(c) == n <==> c as int == "0123456789abcdef"[n] as int || c as int == "0123456789ABCDEF"[n] as int)
  {
  }

  /** A wrapped datagram is a 1, then the token or sixteen zeros, then the datagram from byte 17 on. */
  lemma WireLayout(token: Option<seq<byte>>, datagram: seq<byte>)
    requires token.Some? ==> |token.value| == 16
    ensures var sent := Wrapped(token, datagram);
      && (sent.None? <==> |datagram| > 65536)
      && (sent.Some? ==> |sent.value| == 17 + |datagram| && sent.value[0] == 1 && sent.value[17..] == datagram
                         && sent.value[1..17] == if token.Some? then token.value else Zeros(16))
  {
    WrapParts(if token.Some? then token.value else Zeros(16), datagram);
  }

  /** The player id of a record: bytes 21 to 24, the low byte first, as a signed number. */
  function IdOf(b0: int, b1: int, b2: int, b3: int): int {
    var u := b0 + 0x100 * b1 + 0x1_0000 * b2 + 0x100_0000 * b3;
    if u < 0x8000_0000 then u else u - 0x1_0000_0000
  }

  /** The verdict in terms of the bytes of the record alone. */
  lemma CheckedExactly(rec: seq<byte>, maxBuffer: nat, bound: Bindings)
    ensures var verdict := Checked(rec, maxBuffer, bound);
      if |rec| < 29 || |rec| >= maxBuffer then verdict == DropShortOrOversize
      else if rec[0] != 1 then verdict == DropBadVersion
      else
        var id := IdOf(rec[21], rec[22], rec[23], rec[24]);
        if id == 0 || (id in bound && bound[id] == rec[1..17]) then verdict == Accept(rec[17..])
        else verdict == DropTokenMismatch
  {
    if |rec| >= 29 {
      var body := rec[17..];
      assert body[4] == rec[21] && body[5] == rec[22] && body[6] == rec[23] && body[7] == rec[24];
    }
  }

  // ----- The code -----

  /** Decodes `out.Length` pairs of digits found at `p`, which a NUL must follow. On failure the pairs before the
      offending place have been written. */
  method ProxyHexToBin(buffer: seq<byte>, p: nat, out: array<byte>) returns (ok: bool, ghost done: nat)
    requires p <= |buffer|
    modifies out
    ensures done <= out.Length && out[done..] == old(out[done..])
    ensures ok <==> IsSuffix(buffer, p, 2 * out.Length)
    ensures ok ==> done == out.Length && out[..] == Unhex(buffer[p..p + 2 * out.Length])
  {
    hide Unhex, ByteAt;
    UnhexEmpty();
    EndOfBuffer(buffer);
    ok, done := false, 0;
    var i := 0;
    while i < out.Length
      invariant done == i <= out.Length && out[i..] == old(out[i..])
      invariant forall k :: p <= k < p + 2 * i ==> k < |buffer| && IsDigit(buffer[k])
      invariant p + 2 * i <= |buffer| && forall c <- buffer[p..p + 2 * i] :: IsDigit(c)
      invariant out[..i] == Unhex(buffer[p..p + 2 * i])
    {
      var ch, cl := ByteAt(buffer, p + 2 * i), ByteAt(buffer, p + 2 * i + 1);
      var hi, lo := DigitValue(ch), DigitValue(cl);
      if hi < 0 || lo < 0 {
        return;
      }
      UnhexAppends(buffer[p..p + 2 * i], ch, cl);
      assert buffer[p..p + 2 * (i + 1)] == buffer[p..p + 2 * i] + [ch, cl];
      out[i] := 16 * hi + lo;
      i := i + 1;
      done := i;
    }
    ok := ByteAt(buffer, p + 2 * out.Length) == 0;
  }

  lemma UnhexEmpty()
    ensures Unhex([]) == []
  {
  }

  /** Past the end there is no digit. */
  lemma EndOfBuffer(buffer: seq<byte>)
    ensures forall i: nat :: IsDigit(ByteAt(buffer, i)) ==> i < |buffer|
    ensures forall i: nat :: i < |buffer| ==> ByteAt(buffer, i) == buffer[i]
  {
  }

  /** `n` digits at `p`, then the end of the string. */
  predicate IsSuffix(buffer: seq<byte>, p: nat, n: nat) {
    && p + n <= |buffer| && ByteAt(buffer, p + n) == 0
    && forall k :: p <= k < p + n ==> IsDigit(buffer[k])
  }

  lemma {:induction false} UnhexAppends(s: seq<byte>, hi: byte, lo: byte)
    requires |s| % 2 == 0 && (forall c <- s :: IsDigit(c)) && IsDigit(hi) && IsDigit(lo)
    ensures forall c <- s + [hi, lo] :: IsDigit(c)
    ensures Unhex(s + [hi, lo]) == Unhex(s) + [PairValue(hi, lo)]
  {
    if s == [] {
      assert s + [hi, lo] == [hi, lo];
    } else {
      UnhexAppends(s[2..], hi, lo);
      assert (s + [hi, lo])[2..] == s[2..] + [hi, lo];
    }
  }

  /** Digits up to the end of the buffer's string are exactly a suffix of that string. */
  lemma SuffixOfString(buffer: seq<byte>, p: nat, n: nat)
    requires p <= |CString(buffer)|
    ensures IsSuffix(buffer, p, n) <==> |CString(buffer)| == p + n && forall c <- CString(buffer)[p..] :: IsDigit(c)
    ensures IsSuffix(buffer, p, n) ==> CString(buffer)[p..] == buffer[p..p + n]
  {
    var s := CString(buffer);
    if IsSuffix(buffer, p, n) {
      assert forall k :: 0 <= k < |s| ==> s[k] == buffer[k] != 0;
      assert !IsDigit(0);
      assert s[p..] == buffer[p..p + n];
    } else if |s| == p + n && forall c <- s[p..] :: IsDigit(c) {
      forall k | p <= k < p + n
        ensures IsDigit(buffer[k])
      {
        assert s[p..][k - p] == buffer[k];
      }
    }
  }

  /** The proxy's view of one account. */
  class Proxy {
    var authToken: array<byte>
    var authTokenSet: bool
    var accountUsername: seq<byte>

    ghost predicate Valid()
      reads this
    {
      authToken.Length == TOKEN_LEN
    }

    ghost function Token(): Option<seq<byte>>
      reads this, authToken
    {
      if authTokenSet then Some(authToken[..]) else None
    }

    constructor ()
      ensures Valid() && Token() == None && fresh(authToken)
    {
      authToken := new byte[TOKEN_LEN](_ => 0);
      authTokenSet, accountUsername := false, [];
    }

    /** Learns the token before anything is sent; a malformed suffix leaves the token as it was. */
    method LearnToken(buffer: seq<byte>)
      requires Valid()
      modifies this`authTokenSet, authToken
      ensures Valid()
      ensures Token() == if Learned(CString(buffer)).Some? then Learned(CString(buffer)) else old(Token())
    {
      var ticket := CString(buffer);
      var dash := LastAt(ticket, DASH);
      if dash < |ticket| {
        var tok := new byte[TOKEN_LEN](_ => 0);
        var ok, _ := ProxyHexToBin(buffer, dash + 1, tok);
        SuffixOfString(buffer, dash + 1, 2 * TOKEN_LEN);
        if ok {
          CopyInto(authToken, 0, tok[..]);
          assert authToken[..] == tok[..];
          authTokenSet := true;
        }
      }
    }

    /** `wired` says whether there is a client of the global server, and `answered` whether sending it the ticket brought
        an avatar list; only then is the account name kept. */
    method HandleGlobalConnect(buffer: seq<byte>, wired: bool, answered: bool)
      requires Valid()
      modifies this`authTokenSet, this`accountUsername, authToken
      ensures Valid()
      ensures Token() == if Learned(CString(buffer)).Some? then Learned(CString(buffer)) else old(Token())
      ensures accountUsername == if wired && answered then AccountName(CString(buffer)) else old(accountUsername)
    {
      LearnToken(buffer);
      if !wired {
        return;
      }
      if !answered {
        return;
      }
      var ticket := CString(buffer);
      var lastDash := LastAt(ticket, DASH);
      if lastDash < |ticket| {
        ticket := ticket[..lastDash];
      }
      accountUsername := ticket;
    }

    /** Builds the wrapped datagram in a fixed buffer. */
    method UdpSend(datagram: seq<byte>) returns (sent: Option<seq<byte>>)
      requires Valid()
      ensures sent == Wrapped(Token(), datagram)
    {
      var length := WRAPPER_LEN + |datagram|;
      if length > MAX_DATAGRAM + WRAPPER_LEN {
        return None;
      }
      var wrapped := new byte[MAX_DATAGRAM + WRAPPER_LEN](_ => 0);
      wrapped[0] := VERSION;
      var token := if authTokenSet then authToken[..] else Zeros(TOKEN_LEN);
      CopyInto(wrapped, 1, token);
      CopyInto(wrapped, WRAPPER_LEN, datagram);
      assert wrapped[..length] == [VERSION] + token + datagram;
      return Some(wrapped[..length]);
    }
  }

  /** Looks at every byte whatever it finds, and tells equality. */
  method ConstantTimeTokenEqual(a: seq<byte>, b: seq<byte>) returns (same: bool)
    requires |a| == |b| == TOKEN_LEN
    ensures same == (a == b)
  {
    hide Or, Xor;
    var diff: byte := 0;
    for i := 0 to TOKEN_LEN
      invariant diff == 0 <==> a[..i] == b[..i]
    {
      DifferenceIsZero(diff, a[i], b[i]);
      assert a[..i + 1] == a[..i] + [a[i]] && b[..i + 1] == b[..i] + [b[i]];
      diff := Or(diff, Xor(a[i], b[i]));
    }
    assert a[..TOKEN_LEN] == a && b[..TOKEN_LEN] == b;
    same := diff == 0;
  }

  method CheckAuthWrapper(rec: seq<byte>, maxBuffer: nat, bound: Bindings) returns (verdict: Verdict)
    ensures verdict == Checked(rec, maxBuffer, bound)
  {
    if |rec| < WRAPPER_LEN + HEADER_LEN || |rec| >= maxBuffer {
      return DropShortOrOversize;
    }
    if rec[0] != VERSION {
      return DropBadVersion;
    }
    var body := rec[WRAPPER_LEN..];
    var raw := new byte[4](_ => 0);
    for i := 0 to 4
      invariant forall k :: 0 <= k < i ==> raw[k] == body[PLAYER_ID_AT + k]
    {
      raw[i] := body[PLAYER_ID_AT + i];
    }
    var playerId := Int32(raw[0], raw[1], raw[2], raw[3]);
    if playerId != 0 {
      if playerId !in bound {
        return DropTokenMismatch;
      }
      var same := ConstantTimeTokenEqual(bound[playerId], rec[1..WRAPPER_LEN]);
      if !same {
        return DropTokenMismatch;
      }
    }
    return Accept(body);
  }
}

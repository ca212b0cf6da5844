/** Request signing: what the client sends and what lambda/shardvpn/auth.py accepts. */
module Auth {
  import opened Words
  import opened Unicode
  import opened Calendar
  import opened Decimal
  import Rfc2104
  import ClientHmac

  const TIMESTAMP_HEADER := "x-shardvpn-timestamp"
  const SIGNATURE_HEADER := "x-shardvpn-signature"
  const MAX_SKEW_SECONDS := 120

  // A value out of the event; `verify` must survive one that is not a string.
  datatype Value = Text(s: string) | NotText

  datatype Outcome = Accepted | AuthError

  // ---- lambda/shardvpn/auth.py ----

  function LowerChar(c: char): char { if 'A' <= c <= 'Z' then c - 'A' + 'a' else c }

  // str.lower, on the ASCII letters that the two header names consist of.
  function Lower(s: string): (r: string)
    ensures |r| == |s|
  {
    seq(|s|, i requires 0 <= i < |s| => LowerChar(s[i]))
  }

  // `lowered.get(name, "")`: of several names equal up to case, the last one counts.
  function Get(headers: seq<(Value, Value)>, name: string): Value {
    if headers == [] then Text("")
    else
      var last := headers[|headers| - 1];
      if last.0.Text? && Lower(last.0.s) == name then last.1 else Get(headers[..|headers| - 1], name)
  }

  predicate IsTimestamp(s: string) {
    1 <= |s| <= 11 && forall i :: 0 <= i < |s| ==> IsDigit(s[i])
  }

  predicate IsSignature(s: string) {
    |s| == 64 && forall i :: 0 <= i < |s| ==> Rfc2104.IsHexDigit(s[i])
  }

  function SignedBytes(ts: string, rawBody: seq<Byte>): seq<Byte> { EncodeString(ts + ".") + rawBody }

  function Signature(secret: string, ts: string, rawBody: seq<Byte>): string {
    Rfc2104.Hex(Rfc2104.Hmac(EncodeString(secret), SignedBytes(ts, rawBody)))
  }

  // lambda/shardvpn/auth.py:37-75
  function Verify(headers: seq<(Value, Value)>, rawBody: seq<Byte>, secret: string, now: int,
                  maxSkew: int := MAX_SKEW_SECONDS): Outcome
  {
    if exists i :: 0 <= i < |headers| && headers[i].0.NotText? then AuthError
    else
      var ts, provided := Get(headers, TIMESTAMP_HEADER), Get(headers, SIGNATURE_HEADER);
      if ts.NotText? || provided.NotText? then AuthError
      else if !IsTimestamp(ts.s) || !IsSignature(provided.s) then AuthError
      else if now - ParseInt(ts.s) > maxSkew || ParseInt(ts.s) - now > maxSkew then AuthError
      else if Signature(secret, ts.s, rawBody) != provided.s then AuthError
      else Accepted
  }

  // ---- what a request needs ----

  // The last header whose name is `name` but for the case of A to Z has the value `v`; no header
  // at all counts as an empty one.
  ghost predicate LastNamed(headers: seq<(Value, Value)>, name: string, v: Value) {
    || (v == Text("") && forall i :: 0 <= i < |headers| ==> !IsNamed(headers[i].0, name))
    || exists k :: && 0 <= k < |headers| && IsNamed(headers[k].0, name) && headers[k].1 == v
                   && forall i :: k < i < |headers| ==> !IsNamed(headers[i].0, name)
  }

  ghost predicate IsNamed(v: Value, name: string) {
    && v.Text? && |v.s| == |name|
    && forall i :: 0 <= i < |name| ==>
         name[i] == if 'A' <= v.s[i] <= 'Z' then (v.s[i] as int + 32) as char else v.s[i]
  }

  lemma LowerNames(v: Value, name: string)
    ensures v.Text? && Lower(v.s) == name <==> IsNamed(v, name)
  {
  }

  lemma {:induction false} GetIsLast(headers: seq<(Value, Value)>, name: string)
    ensures forall v :: LastNamed(headers, name, v) <==> v == Get(headers, name)
  {
    if headers != [] {
      var n := |headers| - 1;
      GetIsLast(headers[..n], name);
      LowerNames(headers[n].0, name);
      hide Lower, IsNamed;
      forall v
        ensures LastNamed(headers, name, v) <==> v == Get(headers, name)
      {
        OneMoreHeader(headers, name, v);
      }
    }
  }

  lemma OneMoreHeader(headers: seq<(Value, Value)>, name: string, v: Value)
    requires headers != []
    ensures LastNamed(headers, name, v)
       <==> var n := |headers| - 1;
            if IsNamed(headers[n].0, name) then v == headers[n].1 else LastNamed(headers[..n], name, v)
  {
    hide IsNamed;
    var n := |headers| - 1;
    var before := headers[..n];
    assert forall i :: 0 <= i < n ==> before[i] == headers[i];
    if LastNamed(before, name, v) && !IsNamed(headers[n].0, name) && !(v == Text("") && forall i :: 0 <= i < n ==> !IsNamed(before[i].0, name)) {
      var k :| 0 <= k < n && IsNamed(before[k].0, name) && before[k].1 == v
               && forall i :: k < i < n ==> !IsNamed(before[i].0, name);
      assert IsNamed(headers[k].0, name) && headers[k].1 == v;
    }
  }

  // A fresh timestamp, and the RFC 2104 signature of that timestamp, a dot and the body.
  ghost predicate IsSigned(headers: seq<(Value, Value)>, rawBody: seq<Byte>, secret: string, now: int) {
    && (forall i :: 0 <= i < |headers| ==> headers[i].0.Text?)
    && exists ts, sig ::
         && LastNamed(headers, "x-shardvpn-timestamp", Text(ts)) && LastNamed(headers, "x-shardvpn-signature", Text(sig))
         && 1 <= |ts| <= 11 && (forall i :: 0 <= i < |ts| ==> '0' <= ts[i] <= '9')
         && now - 120 <= ParseInt(ts) <= now + 120
         && sig == Rfc2104.Hex(Rfc2104.Hmac(EncodeString(secret), EncodeString(ts + ".") + rawBody))
  }

  /** A request passes exactly if it is signed; there is no other way in. */
  lemma AcceptedExactly(headers: seq<(Value, Value)>, rawBody: seq<Byte>, secret: string, now: int)
    ensures Verify(headers, rawBody, secret, now) == Accepted <==> IsSigned(headers, rawBody, secret, now)
  {
    hide Get, LastNamed, EncodeString, Rfc2104.Hex, Rfc2104.Hmac, ParseInt;
    GetIsLast(headers, "x-shardvpn-timestamp");
    GetIsLast(headers, "x-shardvpn-signature");
    var ts, sig := Get(headers, "x-shardvpn-timestamp"), Get(headers, "x-shardvpn-signature");
    if ts.Text? {
      Rfc2104.HexShape(Rfc2104.Hmac(EncodeString(secret), EncodeString(ts.s + ".") + rawBody));
    }
  }

  // ---- the client, docs/ios/shardvpn.js:138-148 ----

  // Number.prototype.toString for an integer below 10^21, which every Date.now() is.
  function ToDecimal(n: int): string {
    if n < 0 then "-" + Digits(-n) else Digits(n)
  }

  lemma TimestampShape(t: int)
    ensures IsTimestamp(ToDecimal(t)) <==> 0 <= t < 100_000_000_000
    ensures 0 <= t ==> ToDecimal(t) == Digits(t)
  {
    if t >= 0 {
      DigitsParse(t);
      DigitsLength(t, 11);
      assert Power10(5) == 100_000;
      assert Power10(11) == 100_000_000_000;
    } else {
      assert ToDecimal(t)[0] == '-';
    }
  }

  // The two headers `send` signs with, for a body it has already serialised.
  function ClientHeaders(secret: string, body: string, t: int): seq<(Value, Value)> {
    [(Text("Content-Type"), Text("application/json")),
     (Text("X-ShardVPN-Timestamp"), Text(ToDecimal(t))),
     (Text("X-ShardVPN-Signature"), Text(Signature(secret, ToDecimal(t), EncodeString(body))))]
  }

  lemma MessageBytes(ts: string, body: string)
    ensures EncodeString(ts + "." + body) == SignedBytes(ts, EncodeString(body))
  {
    EncodeStringConcat(ts + ".", body);
  }

  method Sign(secret: string, body: string, t: int) returns (headers: seq<(Value, Value)>)
    requires |JsString(secret)| <= ClientHmac.MAX_STRING
    requires |JsString(ToDecimal(t) + "." + body)| <= ClientHmac.MAX_STRING
    ensures headers == ClientHeaders(secret, body, t)
  {
    var timestamp := ToDecimal(t);
    var signature := ClientHmac.HmacSha256Hex(JsString(secret), JsString(timestamp + "." + body));
    CodePointsOfUtf16(Scalars(secret));
    CodePointsOfUtf16(Scalars(timestamp + "." + body));
    MessageBytes(timestamp, body);
    headers := [(Text("Content-Type"), Text("application/json")),
                (Text("X-ShardVPN-Timestamp"), Text(timestamp)),
                (Text("X-ShardVPN-Signature"), Text(signature))];
  }

  // ---- the two ends together ----

  // The headers as the function sees them: names may be re-cased, reordered and joined by
  // others, as long as the two signing headers arrive with their values.
  ghost predicate Delivers(sent: seq<(Value, Value)>, received: seq<(Value, Value)>)
  {
    && (forall i :: 0 <= i < |received| ==> received[i].0.Text?)
    && Get(received, TIMESTAMP_HEADER) == Get(sent, TIMESTAMP_HEADER)
    && Get(received, SIGNATURE_HEADER) == Get(sent, SIGNATURE_HEADER)
  }

  lemma HeaderNames()
    ensures Lower("X-ShardVPN-Timestamp") == TIMESTAMP_HEADER && Lower("X-ShardVPN-Signature") == SIGNATURE_HEADER
    ensures TIMESTAMP_HEADER != SIGNATURE_HEADER
  {
    assert TIMESTAMP_HEADER[|"x-shardvpn-"|] == 't' && SIGNATURE_HEADER[|"x-shardvpn-"|] == 's';
  }

  lemma LastHeader(headers: seq<(Value, Value)>, name: string, value: Value, wanted: string)
    ensures Get(headers + [(Text(name), value)], wanted) == if Lower(name) == wanted then value else Get(headers, wanted)
  {
    hide Lower;
    assert (headers + [(Text(name), value)])[..|headers|] == headers;
  }

  lemma ClientHeaderValues(secret: string, body: string, t: int)
    ensures var h := ClientHeaders(secret, body, t);
      && (forall i :: 0 <= i < |h| ==> h[i].0.Text?)
      && Get(h, TIMESTAMP_HEADER) == h[1].1
      && Get(h, SIGNATURE_HEADER) == h[2].1
  {
    hide Signature, ToDecimal, EncodeString, Lower, Get;
    var h := ClientHeaders(secret, body, t);
    HeaderNames();
    assert h == h[..2] + [h[2]] && h[..2] == h[..1] + [h[1]];
    LastHeader(h[..2], "X-ShardVPN-Signature", h[2].1, SIGNATURE_HEADER);
    LastHeader(h[..2], "X-ShardVPN-Signature", h[2].1, TIMESTAMP_HEADER);
    LastHeader(h[..1], "X-ShardVPN-Timestamp", h[1].1, TIMESTAMP_HEADER);
  }

  /** A request the client signs is accepted exactly when its clock is within the skew. */
  lemma ClientRequestAccepted(secret: string, body: string, t: int, now: int, received: seq<(Value, Value)>)
    requires Delivers(ClientHeaders(secret, body, t), received)
    ensures Verify(received, EncodeString(body), secret, now) == Accepted
       <==> 0 <= t < 100_000_000_000 && now - 120 <= t <= now + 120
  {
    hide Signature, EncodeString;
    ClientHeaderValues(secret, body, t);
    TimestampShape(t);
    if t >= 0 {
      DigitsParse(t);
    }
    SignatureShape(secret, ToDecimal(t), EncodeString(body));
  }

  lemma SignatureShape(secret: string, ts: string, rawBody: seq<Byte>)
    ensures IsSignature(Signature(secret, ts, rawBody))
  {
    Rfc2104.HexShape(Rfc2104.Hmac(EncodeString(secret), SignedBytes(ts, rawBody)));
  }

  /** The signed bytes determine the timestamp and the body: the dot cannot be moved. */
  lemma {:induction false} SignedBytesDetermineRequest(ts1: string, raw1: seq<Byte>, ts2: string, raw2: seq<Byte>)
    requires forall i :: 0 <= i < |ts1| ==> IsDigit(ts1[i])
    requires forall i :: 0 <= i < |ts2| ==> IsDigit(ts2[i])
    requires SignedBytes(ts1, raw1) == SignedBytes(ts2, raw2)
    ensures ts1 == ts2 && raw1 == raw2
  {
    AsciiHead(ts1 + ".");
    AsciiHead(ts2 + ".");
    var b1, b2 := SignedBytes(ts1, raw1), SignedBytes(ts2, raw2);
    if ts1 != "" && ts2 != "" {
      assert (ts1 + ".")[1..] == ts1[1..] + "." && (ts2 + ".")[1..] == ts2[1..] + ".";
      assert b1[1..] == SignedBytes(ts1[1..], raw1);
      assert b2[1..] == SignedBytes(ts2[1..], raw2);
      SignedBytesDetermineRequest(ts1[1..], raw1, ts2[1..], raw2);
      assert b1[0] == b2[0];
      assert ts1 == [ts1[0]] + ts1[1..] && ts2 == [ts2[0]] + ts2[1..];
    } else {
      assert b1[0] == b2[0];
      assert b1[1..] == raw1 && b2[1..] == raw2;
    }
  }

  lemma AsciiHead(s: string)
    requires s != "" && s[0] as int < 0x80
    ensures EncodeString(s) == [s[0] as int] + EncodeString(s[1..])
  {
    assert Scalars(s)[1..] == Scalars(s[1..]);
  }
}

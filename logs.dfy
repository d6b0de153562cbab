/**
 * The log silencer installed next to the declaration plugin: the host
 * logger's `info` and `warn` channels drop messages from the declaration
 * tool; everything else reaches the original logger unchanged and in order.
 */
module Logs {

  predicate OccursAt(s: string, sub: string, i: nat) {
    i + |sub| <= |s| && s[i..i + |sub|] == sub
  }

  /** `s.includes(sub)` */
  predicate Contains(s: string, sub: string) {
    exists i: nat | i <= |s| :: OccursAt(s, sub, i)
  }

  /** The three markers of declaration-tool output. */
  predicate IsNoise(msg: string) {
    Contains(msg, "[dts]") || Contains(msg, "[unplugin:dts]") || Contains(msg, "unplugin-dts")
  }

  /** Only `info` and `warn` are wrapped; `error` is left as it was. */
  datatype Channel = Info | Warn | Error

  datatype LogCall = LogCall(channel: Channel, msg: string)

  /** Whether the wrapped logger passes a call on to the original one. */
  predicate Passes(c: LogCall) {
    c.channel == Error || !IsNoise(c.msg)
  }

  /** The calls that reach the original logger, for calls made in this order. */
  function Forwarded(calls: seq<LogCall>): (out: seq<LogCall>)
    ensures |out| <= |calls|
    ensures forall c :: c in out ==> c in calls && Passes(c)
  {
    if calls == [] then []
    else (if Passes(calls[0]) then [calls[0]] else []) + Forwarded(calls[1..])
  }

  /** Forwarding distributes over concatenation: calls are neither reordered
      nor held back. */
  lemma {:induction false} ForwardedConcat(a: seq<LogCall>, b: seq<LogCall>)
    ensures Forwarded(a + b) == Forwarded(a) + Forwarded(b)
  {
    if a != [] {
      assert (a + b)[1..] == a[1..] + b;
      ForwardedConcat(a[1..], b);
    } else {
      assert a + b == b;
    }
  }

  /** Every call that passes the filter is forwarded. */
  lemma {:induction false} PassingCallsForwarded(calls: seq<LogCall>, c: LogCall)
    requires c in calls && Passes(c)
    ensures c in Forwarded(calls)
  {
    if calls[0] != c {
      PassingCallsForwarded(calls[1..], c);
    }
  }

  /** Filtering twice is filtering once. */
  lemma {:induction false} ForwardedIdempotent(calls: seq<LogCall>)
    ensures Forwarded(Forwarded(calls)) == Forwarded(calls)
  {
    if calls != [] {
      ForwardedIdempotent(calls[1..]);
      var head := if Passes(calls[0]) then [calls[0]] else [];
      ForwardedConcat(head, Forwarded(calls[1..]));
      if Passes(calls[0]) {
        assert head[1..] == [];
      }
    }
  }

  /** When nothing is noise, the logger behaves as if unwrapped. */
  lemma {:induction false} NoNoiseUnchanged(calls: seq<LogCall>)
    requires forall i :: 0 <= i < |calls| ==> Passes(calls[i])
    ensures Forwarded(calls) == calls
  {
    if calls != [] {
      NoNoiseUnchanged(calls[1..]);
    }
  }

  lemma NoiseExamples()
    ensures IsNoise("[dts] emitted")
    ensures IsNoise("x [unplugin:dts] y")
    ensures IsNoise("unplugin-dts")
    ensures !IsNoise("built")
    ensures Forwarded([LogCall(Warn, "[dts] x"), LogCall(Info, "built"), LogCall(Error, "[dts] y")])
         == [LogCall(Info, "built"), LogCall(Error, "[dts] y")]
  {
    assert OccursAt("[dts] emitted", "[dts]", 0);
    assert OccursAt("x [unplugin:dts] y", "[unplugin:dts]", 2);
    assert OccursAt("unplugin-dts", "unplugin-dts", 0);
    assert OccursAt("[dts] x", "[dts]", 0);
    assert OccursAt("[dts] y", "[dts]", 0);
    forall i: nat | i <= 5 ensures !OccursAt("built", "[dts]", i) {
      if i == 0 {
        assert "built"[0..5][0] != "[dts]"[0];
      }
    }
  }
}

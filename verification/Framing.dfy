/** Cutting a byte stream into messages whose length stands in their head. */
module Framing {
  import opened Basics

  // The first `head` bytes of a message tell its length; lengths of 0 and above `max` are refused.
  datatype Config = Config(head: nat, read: string -> nat, max: nat)

  // The handler's answer to the last of the messages it has been given; a negative one closes.
  type Verdict = seq<string> -> int

  datatype Parsed = Open(delivered: seq<string>, rest: string) | Closed(delivered: seq<string>)

  function Length(c: Config, s: string): nat
    requires |s| >= c.head
  {
    c.read(s[..c.head])
  }

  predicate Accepted(c: Config, n: nat) { 0 < n <= c.max }

  function Parse(c: Config, v: Verdict, delivered: seq<string>, s: string): Parsed
    decreases |s|
  {
    if |s| < c.head then Open(delivered, s)
    else
      var n := Length(c, s);
      if !Accepted(c, n) then Closed(delivered)
      else if |s| < n then Open(delivered, s)
      else
        var d := delivered + [s[..n]];
        if v(d) < 0 then Closed(d) else Parse(c, v, d, s[n..])
  }

  // More bytes continue where the parse stood.
  lemma {:induction false} ParseMore(c: Config, v: Verdict, delivered: seq<string>, s: string, t: string)
    ensures Parse(c, v, delivered, s + t) ==
      match Parse(c, v, delivered, s)
      case Open(d, rest) => Parse(c, v, d, rest + t)
      case Closed(d) => Closed(d)
    decreases |s|
  {
    if |s| >= c.head {
      assert (s + t)[..c.head] == s[..c.head];
      var n := Length(c, s);
      if Accepted(c, n) && |s| >= n {
        assert (s + t)[..n] == s[..n] && (s + t)[n..] == s[n..] + t;
        var d := delivered + [s[..n]];
        if v(d) >= 0 {
          ParseMore(c, v, d, s[n..], t);
        }
      }
    }
  }

  lemma FlattenOneMore(delivered: seq<string>, s: string, n: nat, all: seq<string>, rest: string)
    requires n <= |s| && delivered + [s[..n]] <= all && Flatten(all[|delivered| + 1..]) + rest == s[n..]
    ensures delivered <= all && Flatten(all[|delivered|..]) + rest == s
  {
    var tail := all[|delivered| + 1..];
    assert all[|delivered|..] == [s[..n]] + tail;
    assert s[..n] + Flatten(tail) + rest == s[..n] + (Flatten(tail) + rest);
  }

  // The messages, one after the other, and the bytes left over are the bytes that came in.
  lemma {:induction false} ParseConserves(c: Config, v: Verdict, delivered: seq<string>, s: string)
    ensures var p := Parse(c, v, delivered, s);
      && delivered <= p.delivered
      && (p.Open? ==> Flatten(p.delivered[|delivered|..]) + p.rest == s)
      && (p.Open? ==> |p.rest| < c.head || (|p.rest| < Length(c, p.rest) <= c.max))
    decreases |s|
  {
    if |s| >= c.head && Accepted(c, Length(c, s)) && |s| >= Length(c, s) {
      var n := Length(c, s);
      var d := delivered + [s[..n]];
      assert Parse(c, v, delivered, s) == if v(d) < 0 then Closed(d) else Parse(c, v, d, s[n..]);
      if v(d) >= 0 {
        ParseConserves(c, v, d, s[n..]);
        var p := Parse(c, v, d, s[n..]);
        hide Parse, Flatten;
        assert |d| == |delivered| + 1;
        if p.Open? {
          FlattenOneMore(delivered, s, n, p.delivered, p.rest);
        } else {
          assert delivered <= d <= p.delivered;
        }
      }
    } else {
      assert delivered[|delivered|..] == [];
    }
  }

  predicate TellsItself(c: Config, m: string) {
    c.head <= |m| && c.read(m[..c.head]) == |m| && 0 < |m| <= c.max
  }

  lemma ParseFirst(c: Config, v: Verdict, delivered: seq<string>, m: string, more: string)
    requires TellsItself(c, m) && v(delivered + [m]) >= 0
    ensures Parse(c, v, delivered, m + more) == Parse(c, v, delivered + [m], more)
  {
    assert (m + more)[..|m|] == m && (m + more)[|m|..] == more && (m + more)[..c.head] == m[..c.head];
  }

  // Whole messages, each of which tells its own length, are delivered as they are if the handler does not object.
  lemma {:induction false} ParseWhole(c: Config, v: Verdict, delivered: seq<string>, ms: seq<string>, rest: string)
    requires forall i :: 0 <= i < |ms| ==> TellsItself(c, ms[i])
    requires forall k :: 0 < k <= |ms| ==> v(delivered + ms[..k]) >= 0
    ensures Parse(c, v, delivered, Flatten(ms) + rest) == Parse(c, v, delivered + ms, rest)
    decreases |ms|
  {
    hide Parse, TellsItself;
    if ms == [] {
      assert Flatten(ms) + rest == rest && delivered + ms == delivered;
    } else {
      var m, ms1 := ms[0], ms[1..];
      var d := delivered + [m];
      assert ms == [m] + ms1 && delivered + ms[..1] == d && d + ms1 == delivered + ms;
      assert Flatten(ms) + rest == m + (Flatten(ms1) + rest);
      ParseFirst(c, v, delivered, m, Flatten(ms1) + rest);
      hide Flatten;
      forall k | 0 < k <= |ms1|
        ensures v(d + ms1[..k]) >= 0
      {
        assert d + ms1[..k] == delivered + ms[..k + 1];
      }
      ParseWhole(c, v, d, ms1, rest);
    }
  }

  // What follows them waits until it is complete, or is refused if it tells a length of 0 or above the limit, or if the
  // handler objects.
  lemma ParseRest(c: Config, v: Verdict, delivered: seq<string>, rest: string)
    ensures |rest| < c.head ==> Parse(c, v, delivered, rest) == Open(delivered, rest)
    ensures |rest| >= c.head ==>
      var n := c.read(rest[..c.head]);
      && (n == 0 || n > c.max ==> Parse(c, v, delivered, rest) == Closed(delivered))
      && (|rest| < n <= c.max ==> Parse(c, v, delivered, rest) == Open(delivered, rest))
      && (0 < n <= |rest| && n <= c.max && v(delivered + [rest[..n]]) < 0 ==>
           Parse(c, v, delivered, rest) == Closed(delivered + [rest[..n]]))
  {
  }

  // Every length in s that is read and accepted is above the size of the head.
  predicate Strict(c: Config, s: string)
    decreases |s|
  {
    |s| >= c.head && Accepted(c, Length(c, s)) ==>
      Length(c, s) > c.head && (|s| >= Length(c, s) ==> Strict(c, s[Length(c, s)..]))
  }

  lemma {:induction false} StrictPrefix(c: Config, s: string, t: string)
    requires Strict(c, s + t)
    ensures Strict(c, s)
    decreases |s|
  {
    if |s| >= c.head {
      assert (s + t)[..c.head] == s[..c.head];
      var n := Length(c, s);
      if Accepted(c, n) && |s| >= n {
        assert (s + t)[n..] == s[n..] + t;
        StrictPrefix(c, s[n..], t);
      }
    }
  }

  lemma {:induction false} StrictRest(c: Config, v: Verdict, delivered: seq<string>, s: string, t: string)
    requires Strict(c, s + t) && Parse(c, v, delivered, s).Open?
    ensures Strict(c, Parse(c, v, delivered, s).rest + t)
    decreases |s|
  {
    if |s| >= c.head {
      assert (s + t)[..c.head] == s[..c.head];
      var n := Length(c, s);
      if Accepted(c, n) && |s| >= n {
        assert (s + t)[n..] == s[n..] + t;
        StrictRest(c, v, delivered + [s[..n]], s[n..], t);
      }
    }
  }
}

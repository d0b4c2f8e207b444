/** The step chain of an order: the text "1->2->3" stored in the order's
    step_name column, its parser, and the step that precedes a step in it. */
module Chain {
  import opened Wrappers
  import opened Text

  /** Python's s.split("->"): the pieces between non-overlapping separators,
      found left to right; always at least one piece. */
  function Split(s: string): (parts: seq<string>)
    ensures |parts| >= 1
    decreases |s|
  {
    if |s| < 2 then [s]
    else if s[0] == '-' && s[1] == '>' then [""] + Split(s[2..])
    else
      var rest := Split(s[1..]);
      [[s[0]] + rest[0]] + rest[1..]
  }

  /** The contribution of one split piece: its value when, stripped, it is all digits. */
  function PartValue(part: string): seq<nat> {
    var p := Strip(part);
    if IsDigits(p) then [DigitsValue(p)] else []
  }

  function ChainOfParts(parts: seq<string>): seq<nat> {
    if parts == [] then [] else PartValue(parts[0]) + ChainOfParts(parts[1..])
  }

  /** The chain _parse_step_chain reads from a step_name value: the all-digit
      pieces of the "->"-split string, stripped, in order; empty text gives []. */
  function StepChain(s: string): seq<nat> {
    if s == "" then [] else ChainOfParts(Split(s))
  }

  lemma {:induction false} ChainOfPartsSnoc(parts: seq<string>, part: string)
    ensures ChainOfParts(parts + [part]) == ChainOfParts(parts) + PartValue(part)
  {
    if parts != [] {
      assert (parts + [part])[1..] == parts[1..] + [part];
      ChainOfPartsSnoc(parts[1..], part);
    }
  }

  /** The append loop of _parse_step_chain. */
  method ParseStepChain(s: string) returns (out: seq<nat>)
    ensures out == StepChain(s)
  {
    if s == "" {
      return [];
    }
    var parts := Split(s);
    out := [];
    for i := 0 to |parts|
      invariant out == ChainOfParts(parts[..i])
    {
      var part := Strip(parts[i]);
      var piece: seq<nat> := [];
      if IsDigits(part) {
        piece := [DigitsValue(part)];
      }
      assert piece == PartValue(parts[i]);
      assert parts[..i + 1] == parts[..i] + [parts[i]];
      ChainOfPartsSnoc(parts[..i], parts[i]);
      out := out + piece;
    }
    assert parts[..|parts|] == parts;
  }

  /** "->".join(str(n) for n in ns). */
  function JoinChain(ns: seq<nat>): string {
    if |ns| == 0 then ""
    else if |ns| == 1 then NatToString(ns[0])
    else NatToString(ns[0]) + "->" + JoinChain(ns[1..])
  }

  predicate NoDash(a: string) {
    forall i :: 0 <= i < |a| ==> a[i] != '-'
  }

  lemma {:induction false} SplitNoDash(a: string)
    requires NoDash(a)
    ensures Split(a) == [a]
    decreases |a|
  {
    if |a| >= 2 {
      SplitNoDash(a[1..]);
      assert [a[0]] + a[1..] == a;
    }
  }

  lemma {:induction false} SplitAfterNoDash(a: string, b: string)
    requires NoDash(a)
    ensures Split(a + "->" + b) == [a] + Split(b)
    decreases |a|
  {
    var s := a + "->" + b;
    if a == [] {
      assert s == "->" + b && s[2..] == b;
    } else {
      assert s[1..] == a[1..] + "->" + b;
      SplitAfterNoDash(a[1..], b);
      assert [a[0]] + a[1..] == a;
    }
  }

  /** "->".join(parts). */
  function JoinParts(parts: seq<string>): string
    requires |parts| >= 1
  {
    if |parts| == 1 then parts[0] else parts[0] + "->" + JoinParts(parts[1..])
  }

  /** p holds no "->". */
  predicate NoArrow(p: string) {
    forall k :: 0 <= k < |p| - 1 ==> !(p[k] == '-' && p[k + 1] == '>')
  }

  lemma JoinPartsStartsWithHead(parts: seq<string>)
    requires |parts| >= 1
    ensures |parts[0]| <= |JoinParts(parts)| && JoinParts(parts)[..|parts[0]|] == parts[0]
  {
  }

  /** Gluing a character onto the first piece glues it onto the join. */
  lemma {:induction false} JoinPartsCons(c: char, rest: seq<string>)
    requires |rest| >= 1
    ensures JoinParts([[c] + rest[0]] + rest[1..]) == [c] + JoinParts(rest)
  {
    var parts := [[c] + rest[0]] + rest[1..];
    if |rest| > 1 {
      var tail := JoinParts(rest[1..]);
      assert parts[1..] == rest[1..];
      assert JoinParts(parts) == ([c] + rest[0]) + "->" + tail;
      assert JoinParts(rest) == rest[0] + "->" + tail;
      assert ([c] + rest[0]) + "->" + tail == [c] + (rest[0] + "->" + tail);
    }
  }

  /** Joining the pieces of split("->") with "->" gives s back. */
  lemma {:induction false} SplitRejoin(s: string)
    ensures JoinParts(Split(s)) == s
    decreases |s|
  {
    if |s| < 2 {
    } else if s[0] == '-' && s[1] == '>' {
      var rest := Split(s[2..]);
      SplitRejoin(s[2..]);
      assert ([""] + rest)[1..] == rest;
      assert s == "->" + s[2..];
    } else {
      SplitRejoin(s[1..]);
      JoinPartsCons(s[0], Split(s[1..]));
      assert s == [s[0]] + s[1..];
    }
  }

  /** split("->") cuts at every separator: no piece holds "->". */
  lemma {:induction false} SplitPiecesNoArrow(s: string)
    ensures forall i :: 0 <= i < |Split(s)| ==> NoArrow(Split(s)[i])
    decreases |s|
  {
    if |s| < 2 {
    } else if s[0] == '-' && s[1] == '>' {
      SplitPiecesNoArrow(s[2..]);
      var parts := Split(s);
      assert forall i :: 1 <= i < |parts| ==> parts[i] == Split(s[2..])[i - 1];
    } else {
      var rest := Split(s[1..]);
      SplitPiecesNoArrow(s[1..]);
      SplitRejoin(s[1..]);
      JoinPartsStartsWithHead(rest);
      var head := [s[0]] + rest[0];
      assert NoArrow(head) by {
        forall k | 0 <= k < |head| - 1
          ensures !(head[k] == '-' && head[k + 1] == '>')
        {
          if k > 0 {
            assert head[k] == rest[0][k - 1] && head[k + 1] == rest[0][k];
          } else {
            assert head[1] == rest[0][0] == s[1..][0];
          }
        }
      }
      var parts := [head] + rest[1..];
      assert forall i :: 1 <= i < |parts| ==> parts[i] == rest[i];
    }
  }

  lemma DigitsPartValue(n: nat)
    ensures PartValue(NatToString(n)) == [n]
  {
    var d := NatToString(n);
    assert forall i :: 0 <= i < |d| ==> !IsSpace(d[i]);
    StripPlain(d);
    NatToStringRoundTrip(n);
  }

  lemma {:induction false} SplitJoin(ns: seq<nat>)
    requires ns != []
    ensures ChainOfParts(Split(JoinChain(ns))) == ns
  {
    var head := NatToString(ns[0]);
    assert NoDash(head) by {
      assert forall i :: 0 <= i < |head| ==> IsDigit(head[i]);
    }
    DigitsPartValue(ns[0]);
    if |ns| == 1 {
      SplitNoDash(head);
    } else {
      SplitAfterNoDash(head, JoinChain(ns[1..]));
      var parts := [head] + Split(JoinChain(ns[1..]));
      assert parts[1..] == Split(JoinChain(ns[1..]));
      SplitJoin(ns[1..]);
      assert ns == [ns[0]] + ns[1..];
    }
  }

  /** Round trip: writing a chain of step ids with "->" and parsing it back gives
      the same chain. */
  lemma ParseJoinRoundTrip(ns: seq<nat>)
    ensures StepChain(JoinChain(ns)) == ns
  {
    if ns != [] {
      assert |NatToString(ns[0])| > 0;
      assert JoinChain(ns) != "" by {
        if |ns| > 1 {
          assert |JoinChain(ns)| >= |NatToString(ns[0])|;
        }
      }
      SplitJoin(ns);
    }
  }

  /** The index of the first occurrence of x, as list.index does. */
  function IndexOf(xs: seq<int>, x: int): (i: nat)
    requires x in xs
    ensures i < |xs| && xs[i] == x
    ensures forall j :: 0 <= j < i ==> xs[j] != x
  {
    if xs[0] == x then 0 else 1 + IndexOf(xs[1..], x)
  }

  /** _prev_step: the id standing just before the FIRST occurrence of step in the
      chain; None when step is absent or first. */
  function PrevStep(chain: seq<int>, step: int): (r: Option<int>)
    ensures r.None? <==> (step !in chain || chain[0] == step)
    ensures r.Some? ==> exists i :: 0 < i < |chain| && chain[i] == step && step !in chain[..i] && chain[i - 1] == r.value
  {
    if step !in chain then None
    else
      var i := IndexOf(chain, step);
      if i == 0 then None
      else
        assert step !in chain[..i];
        Some(chain[i - 1])
  }
}

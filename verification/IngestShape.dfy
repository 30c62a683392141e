/** The shape check in front of ingest decoding (internal/server/ingest_limits.go): a stack machine over JSON
    tokens that must agree with the recursive shape of JSON values (RFC 8259, sections 4 and 5). */
module IngestShape {

  const MAX_INGEST_ELEMENTS := 100_000
  const MAX_INGEST_DEPTH := 32

  /** `Atom` is every token that is not a delimiter: scalars, and the keys of objects. */
  datatype Token = OpenArr | CloseArr | OpenObj | CloseObj | Atom

  datatype Verdict = Accepted | TooLarge | Malformed

  // ---------------------------------------------------------------- JSON values

  datatype Json = Scalar | Arr(items: seq<Json>) | Obj(members: seq<Pair>)
  datatype Pair = Pair(key: string, value: Json)

  function Tokens(j: Json): seq<Token>
    decreases j, 0
  {
    match j
    case Scalar => [Atom]
    case Arr(items) => [OpenArr] + ItemTokens(items) + [CloseArr]
    case Obj(members) => [OpenObj] + PairTokens(members) + [CloseObj]
  }

  function ItemTokens(items: seq<Json>): seq<Token>
    decreases items, 0
  {
    if items == [] then [] else Tokens(items[0]) + ItemTokens(items[1..])
  }

  function PairTokens(members: seq<Pair>): seq<Token>
    decreases members, 0
  {
    if members == [] then [] else [Atom] + Tokens(members[0].value) + PairTokens(members[1..])
  }

  /** The lengths of all arrays anywhere in the value, added up. */
  function Elements(j: Json): nat
    decreases j, 0
  {
    match j
    case Scalar => 0
    case Arr(items) => |items| + ItemElements(items)
    case Obj(members) => PairElements(members)
  }

  function ItemElements(items: seq<Json>): nat
    decreases items, 0
  {
    if items == [] then 0 else Elements(items[0]) + ItemElements(items[1..])
  }

  function PairElements(members: seq<Pair>): nat
    decreases members, 0
  {
    if members == [] then 0 else Elements(members[0].value) + PairElements(members[1..])
  }

  /** How deeply containers nest; a scalar nests 0 deep. */
  function Depth(j: Json): nat
    decreases j, 0
  {
    match j
    case Scalar => 0
    case Arr(items) => 1 + ItemDepth(items)
    case Obj(members) => 1 + PairDepth(members)
  }

  function ItemDepth(items: seq<Json>): nat
    decreases items, 0
  {
    if items == [] then 0 else Max(Depth(items[0]), ItemDepth(items[1..]))
  }

  function PairDepth(members: seq<Pair>): nat
    decreases members, 0
  {
    if members == [] then 0 else Max(Depth(members[0].value), PairDepth(members[1..]))
  }

  function Max(a: nat, b: nat): nat {
    if a > b then a else b
  }

  predicate Fits(j: Json) {
    Elements(j) <= 100_000 && Depth(j) <= 32
  }

  // ---------------------------------------------------------------- the machine

  datatype Config = Running(stack: seq<Token>, elements: nat) | Halted(verdict: Verdict)

  /** Is a value that starts now an element of an array? */
  function Counted(stack: seq<Token>): nat {
    if stack != [] && stack[|stack| - 1] == OpenArr then 1 else 0
  }

  function Step(c: Config, tok: Token): Config {
    match c
    case Halted(_) => c
    case Running(stack, n) =>
      if tok == CloseArr || tok == CloseObj then
        if stack == [] then Halted(Malformed)
        else if |stack| == 1 then Halted(Accepted)
        else Running(stack[..|stack| - 1], n)
      else if n + Counted(stack) > MAX_INGEST_ELEMENTS then Halted(TooLarge)
      else if tok == Atom then
        if stack == [] then Halted(Accepted) else Running(stack, n + Counted(stack))
      else if |stack| == MAX_INGEST_DEPTH then Halted(TooLarge)
      else Running(stack + [tok], n + Counted(stack))
  }

  function Run(c: Config, tokens: seq<Token>): Config
    decreases |tokens|
  {
    if tokens == [] then c else Run(Step(c, tokens[0]), tokens[1..])
  }

  /** Running out of tokens, at the end of input or at a lexing error, is malformed. */
  function VerdictOf(tokens: seq<Token>): Verdict {
    match Run(Running([], 0), tokens)
    case Halted(v) => v
    case Running(_, _) => Malformed
  }

  method CheckIngestShape(tokens: seq<Token>) returns (verdict: Verdict)
    ensures verdict == VerdictOf(tokens)
  {
    var stack: seq<Token> := [];
    var elements := 0;
    var next := 0;
    assert tokens[0..] == tokens;
    while next < |tokens|
      invariant 0 <= next <= |tokens|
      invariant |stack| <= MAX_INGEST_DEPTH && 0 <= elements <= MAX_INGEST_ELEMENTS
      invariant Run(Running([], 0), tokens) == Run(Running(stack, elements), tokens[next..])
    {
      var tok := tokens[next];
      ghost var c := Step(Running(stack, elements), tok);
      assert Run(Running([], 0), tokens) == Run(c, tokens[next + 1..]) by {
        assert tokens[next..][1..] == tokens[next + 1..];
      }
      if c.Halted? {
        HaltedStays(c.verdict, tokens[next + 1..]);
      }
      next := next + 1;
      if tok == CloseArr || tok == CloseObj {
        if |stack| == 0 {
          return Malformed;
        }
        stack := stack[..|stack| - 1];
        if |stack| == 0 {
          return Accepted;
        }
        continue;
      }
      if |stack| > 0 && stack[|stack| - 1] == OpenArr {
        elements := elements + 1;
        if elements > MAX_INGEST_ELEMENTS {
          return TooLarge;
        }
      }
      if tok != Atom {
        if |stack| == MAX_INGEST_DEPTH {
          return TooLarge;
        }
        stack := stack + [tok];
        continue;
      }
      if |stack| == 0 {
        return Accepted;
      }
    }
    return Malformed;
  }

  // ---------------------------------------------------------------- runs

  lemma {:induction false} HaltedStays(v: Verdict, tokens: seq<Token>)
    ensures Run(Halted(v), tokens) == Halted(v)
    decreases |tokens|
  {
    if tokens != [] {
      HaltedStays(v, tokens[1..]);
    }
  }

  lemma {:induction false} RunConcat(c: Config, a: seq<Token>, b: seq<Token>)
    ensures Run(c, a + b) == Run(Run(c, a), b)
    decreases |a|
  {
    if a == [] {
      assert a + b == b;
    } else {
      assert (a + b)[1..] == a[1..] + b;
      RunConcat(Step(c, a[0]), a[1..], b);
    }
  }

  /** On any token stream at all, the memory the check keeps is bounded. */
  lemma {:induction false} StackIsBounded(c: Config, tokens: seq<Token>)
    requires c.Running? ==> |c.stack| <= 32 && c.elements <= 100_000
    ensures Run(c, tokens).Running? ==>
      |Run(c, tokens).stack| <= 32 && Run(c, tokens).elements <= 100_000
    decreases |tokens|
  {
    if tokens != [] {
      StackIsBounded(Step(c, tokens[0]), tokens[1..]);
    }
  }

  /** Where the machine is after a stretch of tokens that adds `count` elements and nests `depth` deep. */
  function Outcome(stack: seq<Token>, n: nat, count: nat, depth: nat): Config {
    if n + count > MAX_INGEST_ELEMENTS || |stack| + depth > MAX_INGEST_DEPTH then Halted(TooLarge)
    else Running(stack, n + count)
  }

  /** A container's tokens: its opening delimiter, what is inside, its closing delimiter. */
  function Open(j: Json): Token {
    if j.Arr? then OpenArr else OpenObj
  }

  function Inner(j: Json): seq<Token>
    requires !j.Scalar?
  {
    if j.Arr? then ItemTokens(j.items) else PairTokens(j.members)
  }

  function Close(j: Json): Token {
    if j.Arr? then CloseArr else CloseObj
  }

  lemma ContainerTokens(j: Json)
    requires !j.Scalar?
    ensures Tokens(j) == [Open(j)] + Inner(j) + [Close(j)] && Depth(j) >= 1
  {
  }

  /** Inside a container, a whole value leaves the stack as it was and counts its elements, or is too large. */
  lemma {:induction false} ValueRun(j: Json, stack: seq<Token>, n: nat)
    requires 0 < |stack| <= MAX_INGEST_DEPTH && n <= MAX_INGEST_ELEMENTS
    ensures Run(Running(stack, n), Tokens(j)) == Outcome(stack, n, Counted(stack) + Elements(j), Depth(j))
    decreases j, 1
  {
    if j == Scalar {
      RunOne(Running(stack, n), Atom);
    } else {
      if !Full(stack, n) {
        InnerRun(j, stack + [Open(j)], n + Counted(stack));
      }
      ContainerRun(j, stack, n);
    }
  }

  lemma ContainerRun(j: Json, stack: seq<Token>, n: nat)
    requires !j.Scalar? && 0 < |stack| <= MAX_INGEST_DEPTH && n <= MAX_INGEST_ELEMENTS
    requires !Full(stack, n) ==>
      Run(Running(stack + [Open(j)], n + Counted(stack)), Inner(j)) ==
      Outcome(stack + [Open(j)], n + Counted(stack), Elements(j), Depth(j) - 1)
    ensures Run(Running(stack, n), Tokens(j)) == Outcome(stack, n, Counted(stack) + Elements(j), Depth(j))
  {
    ContainerTokens(j);
    Wrapped(stack, n, Open(j), Inner(j), Close(j), Elements(j), Depth(j));
  }

  lemma {:induction false} InnerRun(j: Json, inside: seq<Token>, n: nat)
    requires !j.Scalar? && 0 < |inside| <= MAX_INGEST_DEPTH && n <= MAX_INGEST_ELEMENTS
    requires inside[|inside| - 1] == Open(j)
    ensures Run(Running(inside, n), Inner(j)) == Outcome(inside, n, Elements(j), Depth(j) - 1)
    decreases j, 0
  {
    if j.Arr? { ItemsRun(j.items, inside, n); } else { PairsRun(j.members, inside, n); }
  }

  lemma {:induction false} RunCons(c: Config, tok: Token, rest: seq<Token>)
    ensures Run(c, [tok] + rest) == Run(Step(c, tok), rest)
  {
    assert ([tok] + rest)[1..] == rest;
  }

  lemma {:induction false} RunOne(c: Config, tok: Token)
    ensures Run(c, [tok]) == Step(c, tok)
  {
    assert [tok][1..] == [];
  }

  /** Is there no room for another container, here? */
  predicate Full(stack: seq<Token>, n: nat) {
    n + Counted(stack) > MAX_INGEST_ELEMENTS || |stack| >= MAX_INGEST_DEPTH
  }

  /** An opening delimiter and tokens whose run inside is known. */
  lemma {:induction false} OpenRun(stack: seq<Token>, n: nat, open: Token, inner: seq<Token>, after: Config)
    requires |stack| <= MAX_INGEST_DEPTH && n <= MAX_INGEST_ELEMENTS
    requires open == OpenArr || open == OpenObj
    requires !Full(stack, n) ==> Run(Running(stack + [open], n + Counted(stack)), inner) == after
    ensures Run(Running(stack, n), [open] + inner) == if Full(stack, n) then Halted(TooLarge) else after
  {
    RunCons(Running(stack, n), open, inner);
    if Full(stack, n) {
      assert Step(Running(stack, n), open) == Halted(TooLarge);
      HaltedStays(TooLarge, inner);
    } else {
      assert Step(Running(stack, n), open) == Running(stack + [open], n + Counted(stack));
    }
  }

  lemma CloseStep(stack: seq<Token>, n: nat, open: Token, close: Token)
    requires close == CloseArr || close == CloseObj
    ensures Step(Running(stack + [open], n), close) == if stack == [] then Halted(Accepted) else Running(stack, n)
  {
    var inside := stack + [open];
    assert inside[..|inside| - 1] == stack;
  }

  /** A container around tokens whose run inside is known. */
  lemma {:induction false} Wrapped(stack: seq<Token>, n: nat, open: Token, inner: seq<Token>, close: Token,
                                   count: nat, depth: nat)
    requires |stack| <= MAX_INGEST_DEPTH && n <= MAX_INGEST_ELEMENTS && depth >= 1
    requires (open == OpenArr || open == OpenObj) && (close == CloseArr || close == CloseObj)
    requires !Full(stack, n) ==>
      Run(Running(stack + [open], n + Counted(stack)), inner) ==
      Outcome(stack + [open], n + Counted(stack), count, depth - 1)
    ensures Run(Running(stack, n), [open] + inner + [close]) ==
            var out := Outcome(stack, n, Counted(stack) + count, depth);
            if stack == [] && out.Running? then Halted(Accepted) else out
  {
    var m := n + Counted(stack);
    var after := Outcome(stack + [open], m, count, depth - 1);
    OpenRun(stack, n, open, inner, after);
    RunConcat(Running(stack, n), [open] + inner, [close]);
    RunOne(if Full(stack, n) then Halted(TooLarge) else after, close);
    if !Full(stack, n) && after.Running? {
      CloseStep(stack, m + count, open, close);
    }
  }

  lemma {:induction false} ItemsRun(items: seq<Json>, stack: seq<Token>, n: nat)
    requires 0 < |stack| <= MAX_INGEST_DEPTH && n <= MAX_INGEST_ELEMENTS && stack[|stack| - 1] == OpenArr
    ensures Run(Running(stack, n), ItemTokens(items)) ==
            Outcome(stack, n, |items| + ItemElements(items), ItemDepth(items))
    decreases items, 0
  {
    if items != [] {
      RunConcat(Running(stack, n), Tokens(items[0]), ItemTokens(items[1..]));
      ValueRun(items[0], stack, n);
      var c := Outcome(stack, n, 1 + Elements(items[0]), Depth(items[0]));
      if c.Halted? {
        HaltedStays(TooLarge, ItemTokens(items[1..]));
      } else {
        ItemsRun(items[1..], stack, c.elements);
      }
    }
  }

  lemma {:induction false} PairsRun(members: seq<Pair>, stack: seq<Token>, n: nat)
    requires 0 < |stack| <= MAX_INGEST_DEPTH && n <= MAX_INGEST_ELEMENTS && stack[|stack| - 1] == OpenObj
    ensures Run(Running(stack, n), PairTokens(members)) == Outcome(stack, n, PairElements(members), PairDepth(members))
    decreases members, 0
  {
    if members != [] {
      var first := members[0].value;
      var rest := PairTokens(members[1..]);
      assert ([Atom] + Tokens(first))[1..] == Tokens(first);
      RunConcat(Running(stack, n), [Atom] + Tokens(first), rest);
      ValueRun(first, stack, n);
      var c := Outcome(stack, n, Elements(first), Depth(first));
      if c.Halted? {
        HaltedStays(TooLarge, rest);
      } else {
        PairsRun(members[1..], stack, c.elements);
      }
    }
  }

  // ---------------------------------------------------------------- main results

  /** A complete value, followed by anything, is accepted exactly when it fits, and is otherwise too large. */
  lemma AcceptsExactlyWhatFits(j: Json, rest: seq<Token>)
    ensures VerdictOf(Tokens(j) + rest) == if Fits(j) then Accepted else TooLarge
  {
    var start := Running([], 0);
    RunConcat(start, Tokens(j), rest);
    if j == Scalar {
      RunOne(start, Atom);
      HaltedStays(Accepted, rest);
    } else {
      TopLevel(j);
      HaltedStays(if Fits(j) then Accepted else TooLarge, rest);
    }
  }

  lemma {:induction false} TopLevel(j: Json)
    requires !j.Scalar?
    ensures Run(Running([], 0), [Open(j)] + Inner(j)) == Outcome([Open(j)], 0, Elements(j), Depth(j) - 1)
    ensures Run(Running([], 0), Tokens(j)) == Halted(if Fits(j) then Accepted else TooLarge)
  {
    ContainerTokens(j);
    assert [] + [Open(j)] == [Open(j)];
    InnerRun(j, [Open(j)], 0);
    OpenRun([], 0, Open(j), Inner(j), Outcome([Open(j)], 0, Elements(j), Depth(j) - 1));
    Wrapped([], 0, Open(j), Inner(j), Close(j), Elements(j), Depth(j));
  }

  /** A truncated array or object is never accepted. */
  lemma NoStrictPrefixIsAccepted(j: Json, k: nat)
    requires !j.Scalar? && k < |Tokens(j)|
    ensures VerdictOf(Tokens(j)[..k]) != Accepted
    ensures Fits(j) ==> VerdictOf(Tokens(j)[..k]) == Malformed
  {
    ContainerTokens(j);
    TopLevel(j);
    var whole := [Open(j)] + Inner(j);
    assert Tokens(j)[..k] == whole[..k];
    HaltedSinceAPrefix(whole, k);
  }

  /** Once halted, always halted; so a prefix of a stretch has halted only as the stretch has. */
  lemma HaltedSinceAPrefix(whole: seq<Token>, k: nat)
    requires k <= |whole|
    ensures var c := Run(Running([], 0), whole[..k]); c.Halted? ==> Run(Running([], 0), whole) == c
  {
    assert whole == whole[..k] + whole[k..];
    RunConcat(Running([], 0), whole[..k], whole[k..]);
    var c := Run(Running([], 0), whole[..k]);
    if c.Halted? {
      HaltedStays(c.verdict, whole[k..]);
    }
  }

  /** A closing delimiter with nothing open, and the end of input before any value, are malformed. */
  lemma StrayCloseIsMalformed(close: Token, rest: seq<Token>)
    requires close == CloseArr || close == CloseObj
    ensures VerdictOf([close] + rest) == Malformed && VerdictOf([]) == Malformed
  {
    RunCons(Running([], 0), close, rest);
    HaltedStays(Malformed, rest);
  }
}

/** The table-driven automaton of network/esmtp-1.0/lexer.c. The compressed tables are parameters;
    `Compressed` says what they must satisfy to stand for a plain transition function, `WellFormed`
    what flex guarantees about the automaton. */
module FlexTables {
  import opened Bytes

  /** yy_ec, yy_meta, yy_base, yy_def, yy_chk, yy_nxt and yy_accept; states from `templates` on
      exist only to share transitions. `plain` and `rank` are what the tables stand for: the
      successor of every state on every class, and the length of its chain of defaults. */
  datatype Machine = Machine(
    ec: seq<nat>, meta: seq<nat>, base: seq<nat>, def: seq<nat>, chk: seq<nat>, nxt: seq<nat>,
    accept: seq<nat>, templates: nat, jamBase: nat, jam: nat, eob: nat, endOfBuffer: nat,
    plain: seq<seq<nat>>, rank: seq<nat>)

  function Classes(m: Machine): nat { |m.meta| }

  /** All indices that the lookup computes are in range. */
  predicate Sized(m: Machine) {
    && |m.ec| == 256 && Classes(m) > 1
    && (forall b :: 0 <= b < 256 ==> m.ec[b] < Classes(m))
    && (forall c :: 0 <= c < Classes(m) ==> m.meta[c] < Classes(m))
    && |m.base| == |m.def| == |m.plain| == |m.rank| >= m.templates == |m.accept|
    && |m.chk| == |m.nxt|
    && (forall s: nat :: 1 <= s < |m.base| ==> |m.plain[s]| == Classes(m) && m.base[s] + Classes(m) <= |m.chk|)
  }

  predicate IsState(m: Machine, s: nat) {
    1 <= s < m.templates
  }

  /** One entry of the plain table against the compressed ones: own entries are marked in chk,
      all others are those of the default state, on the meta class once that is a template. */
  ghost predicate Entry(m: Machine, s: nat, c: nat)
    requires Sized(m) && 1 <= s < |m.base| && c < Classes(m)
  {
    var i := m.base[s] + c;
    if m.chk[i] == s then m.plain[s][c] == m.nxt[i]
    else
      var d := m.def[s];
      && 1 <= d < |m.base| && m.rank[d] < m.rank[s]
      && m.plain[s][c] == m.plain[d][if d >= m.templates then m.meta[c] else c]
  }

  ghost predicate Compressed(m: Machine) {
    && Sized(m)
    && (forall s: nat, c: nat :: 1 <= s < |m.base| && 0 <= c < Classes(m) ==> Entry(m, s, c))
    && (forall s: nat, c: nat :: 1 <= s < |m.base| && 0 <= c < Classes(m) ==> IsState(m, m.plain[s][c]))
  }

  /** What flex builds into every scanner without yymore or REJECT: class 0 is the end-of-buffer
      mark and leads to a state of its own that accepts it and nothing after it; the states the
      loop stops in have no way on; some rule matches every single character. */
  ghost predicate WellFormed(m: Machine) {
    && Compressed(m)
    && IsState(m, m.jam) && IsState(m, m.eob) && m.jam != m.eob
    && m.ec[0] == 0 && (forall b :: 1 <= b < 256 ==> m.ec[b] >= 1)
    && m.base[m.jam] == m.jamBase && m.base[m.eob] != m.jamBase
    && m.accept[m.jam] == 0 && m.accept[m.eob] == m.endOfBuffer != 0
    && (forall s: nat :: IsState(m, s) && s != m.eob ==> m.accept[s] != m.endOfBuffer && m.plain[s][0] == m.eob)
    && (forall c :: 0 <= c < Classes(m) ==> m.plain[m.eob][c] == m.jam)
    && (forall s: nat, c: nat :: IsState(m, s) && 1 <= c < Classes(m) ==> m.plain[s][c] != m.eob)
    && (forall s: nat, c: nat ::
          IsState(m, s) && 1 <= c < Classes(m) && m.base[s] == m.jamBase ==> m.plain[s][c] == m.jam)
  }

  ghost predicate IsStart(m: Machine, q: nat)
    requires Compressed(m)
  {
    && IsState(m, q) && m.accept[q] == 0 && q != m.eob && m.base[q] != m.jamBase
    && forall c :: 1 <= c < Classes(m) ==> m.accept[m.plain[q][c]] != 0
  }

  /** The tables of one rule that matches every single character: 1 starts, 3 accepts, 2 is the
      end-of-buffer state and 4 the jam state, whose entries 3 shares. */
  function Smallest(): Machine {
    Machine(seq(256, i => if i == 0 then 0 else 1), [0, 1], [0, 0, 2, 4, 4], [0, 0, 0, 4, 0],
            [1, 1, 2, 2, 4, 4], [2, 3, 4, 4, 2, 4], [0, 0, 2, 1, 0], 5, 4, 4, 2, 2,
            [[], [2, 3], [4, 4], [2, 4], [2, 4]], [0, 0, 0, 1, 0])
  }

  lemma SmallestCompressed(m: Machine)
    requires m == Smallest()
    ensures Compressed(m)
  {
    assert |m.base| == 5 && |m.chk| == 6 && Classes(m) == 2;
    assert m.base[1] == 0 && m.base[2] == 2 && m.base[3] == 4 && m.base[4] == 4 && m.meta[0] == 0 && m.meta[1] == 1;
    assert m.plain[1] == [2, 3] && m.plain[2] == [4, 4] && m.plain[3] == [2, 4] && m.plain[4] == [2, 4];
    assert m.chk[0] == 1 && m.chk[1] == 1 && m.chk[2] == 2 && m.chk[3] == 2 && m.chk[4] == 4 && m.chk[5] == 4;
    assert m.nxt[0] == 2 && m.nxt[1] == 3 && m.nxt[2] == 4 && m.nxt[3] == 4 && m.nxt[4] == 2 && m.nxt[5] == 4;
    assert m.def[3] == 4 && m.rank[4] == 0 && m.rank[3] == 1 && m.templates == 5 && |m.accept| == 5;
    assert forall b :: 0 <= b < 256 ==> m.ec[b] < 2;
    hide Smallest;
    assert Sized(m);
    forall s: nat, c: nat | 1 <= s < |m.base| && 0 <= c < Classes(m) ensures Entry(m, s, c) {
      assert s == 1 || s == 2 || s == 3 || s == 4;
    }
    forall s: nat, c: nat | 1 <= s < |m.base| && 0 <= c < Classes(m) ensures IsState(m, m.plain[s][c]) {
      assert s == 1 || s == 2 || s == 3 || s == 4;
    }
  }

  /** They satisfy what is asked of tables and of start states. */
  lemma SmallestWellFormed(m: Machine)
    requires m == Smallest()
    ensures WellFormed(m) && IsStart(m, 1)
  {
    SmallestCompressed(m);
    assert m.base[1] == 0 && m.base[2] == 2 && m.base[3] == 4 && m.base[4] == 4 && Classes(m) == 2;
    assert m.plain[1] == [2, 3] && m.plain[2] == [4, 4] && m.plain[3] == [2, 4] && m.plain[4] == [2, 4];
    assert m.accept[1] == 0 && m.accept[2] == 2 && m.accept[3] == 1 && m.accept[4] == 0 && m.templates == 5;
    assert m.jam == 4 && m.eob == 2 && m.jamBase == 4 && m.endOfBuffer == 2;
    assert m.ec[0] == 0 && forall b :: 1 <= b < 256 ==> m.ec[b] == 1;
    hide Smallest, Compressed;
    forall s: nat | IsState(m, s)
      ensures s == 1 || s == 2 || s == 3 || s == 4
    {}
  }

  /** The class of a character of the text; a real NUL has class 1. */
  function ClassOf(m: Machine, b: byte): (c: nat)
    requires WellFormed(m)
    ensures 1 <= c < Classes(m)
  {
    if b == 0 then 1 else m.ec[b]
  }

  /** The plain automaton. */
  function Delta(m: Machine, s: nat, c: nat): (t: nat)
    requires Compressed(m) && IsState(m, s) && c < Classes(m)
    ensures IsState(m, t)
  {
    m.plain[s][c]
  }

  /** The class the main loop reads for a byte of the buffer: 0 for a zero byte, text or mark. */
  function EcClass(m: Machine, b: byte): (c: nat)
    requires Compressed(m)
    ensures c < Classes(m)
  {
    m.ec[b]
  }

  function Accept(m: Machine, s: nat): nat
    requires Compressed(m) && IsState(m, s)
  {
    m.accept[s]
  }

  /** The loop of yy_match ends in these states. */
  predicate Stops(m: Machine, s: nat)
    requires Compressed(m) && IsState(m, s)
  {
    m.base[s] == m.jamBase
  }

  lemma ZeroByte(m: Machine, s: nat)
    requires WellFormed(m) && IsState(m, s)
    ensures Delta(m, s, EcClass(m, 0)) == if s == m.eob then m.jam else m.eob
  {
  }

  lemma AfterMark(m: Machine, c: nat)
    requires WellFormed(m) && c < Classes(m)
    ensures Delta(m, m.eob, c) == m.jam
  {
  }

  lemma TextByte(m: Machine, b: byte)
    requires WellFormed(m) && b != 0
    ensures EcClass(m, b) == ClassOf(m, b)
  {
  }

  lemma SpecialStates(m: Machine)
    requires WellFormed(m)
    ensures IsState(m, m.jam) && Stops(m, m.jam) && Accept(m, m.jam) == 0
    ensures IsState(m, m.eob) && !Stops(m, m.eob) && Accept(m, m.eob) == m.endOfBuffer != 0 && m.jam != m.eob
  {
  }

  lemma OnlyMarkEnds(m: Machine, s: nat)
    requires WellFormed(m) && IsState(m, s)
    ensures Accept(m, s) == m.endOfBuffer <==> s == m.eob
  {
  }

  lemma StartPlain(m: Machine, q: nat)
    requires WellFormed(m) && IsStart(m, q)
    ensures IsState(m, q) && q != m.eob && Accept(m, q) == 0
  {
  }

  /** The lookup through yy_chk, yy_def and yy_meta ends, and finds the plain transition. */
  method Lookup(m: Machine, state: nat, class0: nat) returns (t: nat)
    requires Compressed(m) && IsState(m, state) && class0 < Classes(m)
    ensures t == Delta(m, state, class0)
  {
    var s: nat, c: nat := state, class0;
    assert Entry(m, s, c);
    while m.chk[m.base[s] + c] != s
      invariant 1 <= s < |m.base| && c < Classes(m) && m.plain[s][c] == m.plain[state][class0]
      invariant Entry(m, s, c)
      decreases m.rank[s]
    {
      s := m.def[s];
      if s >= m.templates {
        c := m.meta[c];
      }
    }
    t := m.nxt[m.base[s] + c];
  }

  /** The state after a text. */
  function StateAfter(m: Machine, q: nat, text: seq<byte>): (s: nat)
    requires WellFormed(m) && IsState(m, q)
    ensures IsState(m, s)
    decreases |text|
  {
    if text == [] then q
    else Delta(m, StateAfter(m, q, text[..|text| - 1]), ClassOf(m, text[|text| - 1]))
  }

  /** The rule that accepts a text, 0 for none. */
  function Rule(m: Machine, q: nat, text: seq<byte>): nat
    requires WellFormed(m) && IsState(m, q)
  {
    Accept(m, StateAfter(m, q, text))
  }

  /** The first n characters of the input are its longest accepted prefix. */
  predicate Longest(m: Machine, q: nat, input: seq<byte>, n: nat)
    requires WellFormed(m) && IsState(m, q)
  {
    && 1 <= n <= |input| && Rule(m, q, input[..n]) != 0
    && forall k :: n < k <= |input| ==> Rule(m, q, input[..k]) == 0
  }

  lemma StateNext(m: Machine, q: nat, input: seq<byte>, n: nat)
    requires WellFormed(m) && IsState(m, q) && n < |input|
    ensures StateAfter(m, q, input[..n + 1]) == Delta(m, StateAfter(m, q, input[..n]), ClassOf(m, input[n]))
  {
    assert input[..n + 1][..n] == input[..n];
  }

  lemma {:induction false} NotEob(m: Machine, q: nat, text: seq<byte>)
    requires WellFormed(m) && IsState(m, q) && q != m.eob
    ensures StateAfter(m, q, text) != m.eob
    decreases |text|
  {
    if text != [] {
      NotEob(m, q, text[..|text| - 1]);
    }
  }

  /** Past a state that has no way on nothing is accepted. */
  lemma {:induction false} StuckForGood(m: Machine, q: nat, input: seq<byte>, n: nat, k: nat)
    requires WellFormed(m) && IsState(m, q) && n < k <= |input|
    requires Stops(m, StateAfter(m, q, input[..n]))
    ensures StateAfter(m, q, input[..k]) == m.jam
    decreases k
  {
    StateNext(m, q, input, k - 1);
    if n < k - 1 {
      StuckForGood(m, q, input, n, k - 1);
    }
  }

  lemma FirstAccepted(m: Machine, q: nat, input: seq<byte>)
    requires WellFormed(m) && IsStart(m, q) && input != []
    ensures Rule(m, q, input[..1]) != 0
  {
    StateNext(m, q, input, 0);
    assert input[..0] == [];
  }

  /** The length of the longest accepted prefix, when nothing longer than n is accepted. */
  function FindLongest(m: Machine, q: nat, input: seq<byte>, n: nat): (e: nat)
    requires WellFormed(m) && IsStart(m, q) && 1 <= n <= |input|
    requires forall k :: n < k <= |input| ==> Rule(m, q, input[..k]) == 0
    ensures Longest(m, q, input, e)
    decreases n
  {
    if Rule(m, q, input[..n]) != 0 then n
    else
      FirstAccepted(m, q, input);
      FindLongest(m, q, input, n - 1)
  }

  /** Every input that is not empty has exactly one longest accepted prefix. */
  lemma LongestUnique(m: Machine, q: nat, input: seq<byte>, a: nat, b: nat)
    requires WellFormed(m) && IsState(m, q) && Longest(m, q, input, a) && Longest(m, q, input, b)
    ensures a == b
  {
  }
}

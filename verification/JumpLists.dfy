/** Jump lists of the Berry code generator (be_code.c): lists of emitted jumps threaded through
    the offset fields of the jump instructions, ended by the offset NO_JUMP. */
module JumpLists {
  import opened Decoder

  // get_jump: the next jump of the list, or NO_JUMP.
  function NextJump(code: seq<Instruction>, pc: int): int
    requires 0 <= pc < |code|
  {
    var offset := SBx(code[pc]);
    if offset == NO_JUMP then NO_JUMP else pc + 1 + offset
  }

  // setjump, as the new contents of the code vector
  function Retargeted(code: seq<Instruction>, pc: int, dst: int): seq<Instruction>
    requires 0 <= pc < |code|
  {
    code[pc := WithSBx(code[pc], dst - (pc + 1))]
  }

  predicate InRange(pc: int, dst: int) {
    -IsBx_MAX <= dst - (pc + 1) <= IsBx_MAX + 1
  }

  // The destination a jump instruction has when it runs.
  function Destination(code: seq<Instruction>, pc: int): int
    requires 0 <= pc < |code|
  {
    pc + 1 + SBx(code[pc])
  }

  predicate IsJumpBool(i: Instruction) {
    Op(i) == OP_JMPT || Op(i) == OP_JMPF
  }

  // list is the head of the list of the jumps at pcs, in that order.
  ghost predicate IsList(code: seq<Instruction>, list: int, pcs: seq<int>)
    decreases pcs
  {
    if pcs == [] then list == NO_JUMP
    else list == pcs[0] && 0 <= list < |code| && IsList(code, NextJump(code, list), pcs[1..])
  }

  // ----- lists stay acyclic -----

  lemma {:induction false} ListInCode(code: seq<Instruction>, list: int, pcs: seq<int>)
    requires IsList(code, list, pcs)
    ensures forall k :: 0 <= k < |pcs| ==> 0 <= pcs[k] < |code|
    decreases pcs
  {
    if pcs != [] {
      ListInCode(code, NextJump(code, list), pcs[1..]);
    }
  }

  // One head has one list.
  lemma {:induction false} ListUnique(code: seq<Instruction>, list: int, p: seq<int>, q: seq<int>)
    requires IsList(code, list, p) && IsList(code, list, q)
    ensures p == q
    decreases p
  {
    if p != [] && q != [] {
      ListUnique(code, NextJump(code, list), p[1..], q[1..]);
      assert p == [p[0]] + p[1..] && q == [q[0]] + q[1..];
    }
  }

  lemma {:induction false} Suffix(code: seq<Instruction>, list: int, pcs: seq<int>, k: int)
    requires IsList(code, list, pcs) && 0 <= k < |pcs|
    ensures IsList(code, pcs[k], pcs[k..])
    decreases pcs
  {
    if k > 0 {
      Suffix(code, NextJump(code, list), pcs[1..], k - 1);
      assert pcs[1..][k - 1..] == pcs[k..];
    }
  }

  // No jump occurs twice, so following a list ends.
  lemma Acyclic(code: seq<Instruction>, list: int, pcs: seq<int>)
    requires IsList(code, list, pcs)
    ensures forall a, b :: 0 <= a < b < |pcs| ==> pcs[a] != pcs[b]
  {
    forall a, b | 0 <= a < b < |pcs| ensures pcs[a] != pcs[b] {
      Suffix(code, list, pcs, a);
      Suffix(code, list, pcs, b);
      if pcs[a] == pcs[b] {
        ListUnique(code, pcs[a], pcs[a..], pcs[b..]);
        assert false;
      }
    }
  }

  // Code that agrees on the listed instructions has the same list.
  lemma {:induction false} ListFrame(code: seq<Instruction>, code': seq<Instruction>, list: int, pcs: seq<int>)
    requires IsList(code, list, pcs) && |code'| >= |code|
    requires forall k :: 0 <= k < |pcs| && 0 <= pcs[k] < |code| ==> code'[pcs[k]] == code[pcs[k]]
    ensures IsList(code', list, pcs)
    decreases pcs
  {
    if pcs != [] {
      assert code'[pcs[0]] == code[pcs[0]];
      forall k | 0 <= k < |pcs[1..]| && 0 <= pcs[1..][k] < |code| ensures code'[pcs[1..][k]] == code[pcs[1..][k]] {
        assert pcs[1..][k] == pcs[k + 1];
      }
      ListFrame(code, code', NextJump(code, list), pcs[1..]);
    }
  }

  // ----- patching -----

  function Target(i: Instruction, vtarget: int, dtarget: int): int {
    if IsJumpBool(i) then dtarget else vtarget
  }

  // The code after sending each listed jump to its target.
  function Patched(code: seq<Instruction>, pcs: seq<int>, vtarget: int, dtarget: int): seq<Instruction>
    requires forall k :: 0 <= k < |pcs| ==> 0 <= pcs[k] < |code|
    decreases pcs
  {
    if pcs == [] then code
    else Patched(Retargeted(code, pcs[0], Target(code[pcs[0]], vtarget, dtarget)), pcs[1..], vtarget, dtarget)
  }

  // Patching changes no opcode and no register, no instruction off the list, and sends every
  // listed jump to its target when that is within reach of the offset field.
  lemma {:induction false} PatchedAt(code: seq<Instruction>, pcs: seq<int>, vtarget: int, dtarget: int, pc: int)
    requires (forall k :: 0 <= k < |pcs| ==> 0 <= pcs[k] < |code|) && 0 <= pc < |code|
    requires forall a, b :: 0 <= a < b < |pcs| ==> pcs[a] != pcs[b]
    ensures var code' := Patched(code, pcs, vtarget, dtarget);
            |code'| == |code| && Op(code'[pc]) == Op(code[pc]) && RA(code'[pc]) == RA(code[pc])
            && (pc !in pcs ==> code'[pc] == code[pc])
            && (pc in pcs ==>
                  var target := if code[pc] / 0x400_0000 == 29 || code[pc] / 0x400_0000 == 30 then dtarget else vtarget;
                  pc + 1 + (code'[pc] as int % 0x4_0000 - 131071) == target <==> -131071 <= target - (pc + 1) <= 131072)
    decreases pcs
  {
    Fields(code[pc]);
    hide Op, RA, Bx;
    if pcs != [] {
      var p := pcs[0];
      var code1 := RetargetedAt(code, p, Target(code[p], vtarget, dtarget), pc);
      assert p !in pcs[1..];
      PatchedAt(code1, pcs[1..], vtarget, dtarget, pc);
      assert pc in pcs <==> pc == p || pc in pcs[1..];
    }
  }

  lemma RetargetedAt(code: seq<Instruction>, p: int, dst: int, pc: int) returns (code': seq<Instruction>)
    requires 0 <= p < |code| && 0 <= pc < |code|
    ensures code' == Retargeted(code, p, dst) && Op(code'[pc]) == Op(code[pc]) && RA(code'[pc]) == RA(code[pc])
    ensures pc != p ==> code'[pc] == code[pc]
    ensures pc == p ==>
              (pc + 1 + (code'[pc] as int % 0x4_0000 - 131071) == dst <==> -131071 <= dst - (pc + 1) <= 131072)
  {
    WithSBxFields(code[p], dst - (p + 1));
    Fields(WithSBx(code[p], dst - (p + 1)));
    hide Op, RA, Bx;
    code' := Retargeted(code, p, dst);
  }

  // ----- joining -----

  // Linking the last jump of one list to the head of a disjoint one joins the lists.
  lemma {:induction false} Joined(code: seq<Instruction>, list: int, p: seq<int>, jmp: int, q: seq<int>)
    requires IsList(code, list, p) && IsList(code, jmp, q) && p != [] && q != []
    requires forall a, b :: 0 <= a < |p| && 0 <= b < |q| ==> p[a] != q[b]
    requires 0 <= p[|p| - 1] < |code| && InRange(p[|p| - 1], jmp)
    ensures IsList(Retargeted(code, p[|p| - 1], jmp), list, p + q)
  {
    var last := p[|p| - 1];
    ListFrame(code, Retargeted(code, last, jmp), jmp, q);
    JoinedFrom(code, list, p, jmp, q);
  }

  lemma LinkFollows(code: seq<Instruction>, p: int, dst: int)
    requires 0 <= p < |code| && InRange(p, dst) && dst >= 0 && dst != p
    ensures NextJump(Retargeted(code, p, dst), p) == dst
  {
    WithSBxFields(code[p], dst - (p + 1));
  }

  lemma SameLength(code: seq<Instruction>, p: int, dst: int)
    requires 0 <= p < |code|
    ensures |Retargeted(code, p, dst)| == |code|
  {}

  lemma OtherLinks(code: seq<Instruction>, p: int, dst: int, x: int)
    requires 0 <= p < |code| && 0 <= x < |code| && x != p
    ensures |Retargeted(code, p, dst)| == |code| && NextJump(Retargeted(code, p, dst), x) == NextJump(code, x)
  {}

  lemma TailOf(p: seq<int>, q: seq<int>)
    requires p != []
    ensures p + q != [] && (p + q)[0] == p[0] && (p + q)[1..] == p[1..] + q
    ensures if |p| == 1 then p[1..] + q == q else p[1..] != [] && p[1..][|p[1..]| - 1] == p[|p| - 1]
  {}

  // Along a list the first link is followed.
  lemma FirstLink(code: seq<Instruction>, pcs: seq<int>)
    requires pcs != [] && 0 <= pcs[0] < |code| && IsList(code, NextJump(code, pcs[0]), pcs[1..])
    ensures IsList(code, pcs[0], pcs)
  {}

  lemma {:induction false} JoinedFrom(code: seq<Instruction>, list: int, p: seq<int>, jmp: int, q: seq<int>)
    requires IsList(code, list, p) && p != [] && q != [] && jmp == q[0] != p[|p| - 1]
    requires 0 <= p[|p| - 1] < |code| && InRange(p[|p| - 1], jmp) && jmp >= 0
    requires IsList(Retargeted(code, p[|p| - 1], jmp), jmp, q)
    ensures IsList(Retargeted(code, p[|p| - 1], jmp), list, p + q)
    decreases p
  {
    var last := p[|p| - 1];
    Acyclic(code, list, p);
    TailOf(p, q);
    SameLength(code, last, jmp);
    assert list == p[0] && 0 <= list < |code| && IsList(code, NextJump(code, list), p[1..]) && (|p| > 1 ==> list != last);
    hide NextJump, Retargeted, InRange, IsList;
    if |p| == 1 {
      LinkFollows(code, list, jmp);
    } else {
      OtherLinks(code, last, jmp, list);
      JoinedFrom(code, NextJump(code, list), p[1..], jmp, q);
    }
    FirstLink(Retargeted(code, last, jmp), p + q);
  }

  // ----- the code generator's state -----

  class FuncInfo {
    var code: seq<Instruction>
    var pc: int

    predicate Valid()
      reads this
    {
      pc == |code|
    }

    method GetJump(at: int) returns (next: int)
      requires 0 <= at < |code|
      ensures next == NextJump(code, at)
      ensures next == if code[at] % 0x4_0000 == 131070 then -1 else at + 1 + (code[at] as int % 0x4_0000 - 131071)
    {
      Fields(code[at]);
      hide Op, RA, Bx;
      var offset := SBx(code[at]);
      next := if offset == NO_JUMP then NO_JUMP else at + 1 + offset;
    }

    method SetJump(at: int, dst: int)
      requires 0 <= at < |code|
      modifies this`code
      ensures code == Retargeted(old(code), at, dst)
    {
      code := code[at := WithSBx(code[at], dst - (at + 1))];
    }

    // appendjump once the operand is in a register: emits an unresolved jump, a list of its own.
    method AppendJump(op: nat, reg: nat) returns (at: int)
      requires Valid() && op < 64 && reg < 256
      modifies this
      ensures Valid() && at == old(pc) && |code| == |old(code)| + 1 && code[..|old(code)|] == old(code)
      ensures Op(code[at]) == op && RA(code[at]) == reg && IsList(code, at, [at])
    {
      at := pc;
      code := code + [MakeABx(op, reg, NO_JUMP + IsBx_MAX)];
      pc := pc + 1;
    }

    // patchlistaux
    method PatchListAux(list: int, vtarget: int, dtarget: int, ghost pcs: seq<int>)
      requires IsList(code, list, pcs)
      modifies this`code
      ensures forall k :: 0 <= k < |pcs| ==> 0 <= pcs[k] < |old(code)|
      ensures code == Patched(old(code), pcs, vtarget, dtarget)
    {
      ListInCode(code, list, pcs);
      ghost var rest := pcs;
      var l := list;
      while l != NO_JUMP
        invariant IsList(code, l, rest) && |code| == |old(code)|
        invariant forall k :: 0 <= k < |rest| ==> 0 <= rest[k] < |code|
        invariant Patched(code, rest, vtarget, dtarget) == Patched(old(code), pcs, vtarget, dtarget)
        decreases |rest|
      {
        Acyclic(code, l, rest);
        ghost var was := code;
        var next := GetJump(l);
        if IsJumpBool(code[l]) {
          SetJump(l, dtarget);
        } else {
          SetJump(l, vtarget);
        }
        ListFrame(was, code, next, rest[1..]);
        l, rest := next, rest[1..];
      }
    }

    // be_code_patchjump and be_code_patchlist
    method PatchJump(jmp: int, ghost pcs: seq<int>)
      requires IsList(code, jmp, pcs)
      modifies this`code
      ensures forall k :: 0 <= k < |pcs| ==> 0 <= pcs[k] < |old(code)|
      ensures code == Patched(old(code), pcs, pc, pc)
    {
      PatchListAux(jmp, pc, pc, pcs);
    }

    method PatchList(list: int, dst: int, ghost pcs: seq<int>)
      requires IsList(code, list, pcs)
      modifies this`code
      ensures forall k :: 0 <= k < |pcs| ==> 0 <= pcs[k] < |old(code)|
      ensures code == Patched(old(code), pcs, dst, dst)
    {
      if dst == pc {
        PatchJump(list, pcs);
      } else {
        PatchListAux(list, dst, dst, pcs);
      }
    }

    // be_code_conjump: the list at list followed by the one at jmp
    method ConJump(list: int, jmp: int, ghost p: seq<int>, ghost q: seq<int>) returns (list': int)
      requires IsList(code, list, p) && IsList(code, jmp, q)
      requires forall a, b :: 0 <= a < |p| && 0 <= b < |q| ==> p[a] != q[b]
      requires p != [] && q != [] ==> InRange(p[|p| - 1], jmp)
      modifies this`code
      ensures IsList(code, list', p + q)
      ensures |code| == |old(code)|
      ensures forall i :: 0 <= i < |code| && (p == [] || q == [] || i != p[|p| - 1]) ==> code[i] == old(code[i])
      ensures forall i :: 0 <= i < |code| ==> Op(code[i]) == Op(old(code[i])) && RA(code[i]) == RA(old(code[i]))
    {
      hide SBx, WithSBx, Op, RA;
      if jmp == NO_JUMP {
        ListInCode(code, jmp, q);
        assert p + q == p;
        return list;
      }
      ListInCode(code, list, p);
      if list == NO_JUMP {
        assert p + q == q;
        return jmp;
      }
      var l := list;
      ghost var a := 0;
      var next := GetJump(l);
      while next != NO_JUMP
        invariant code == old(code)
        invariant 0 <= a < |p| && p[a] == l && 0 <= l < |code| && next == NextJump(code, l)
        decreases |p| - a
      {
        Suffix(code, list, p, a);
        assert p[a..][1..] == p[a + 1..];
        l, a := next, a + 1;
        next := GetJump(l);
      }
      Suffix(code, list, p, a);
      assert p[a..][1..] == p[a + 1..];
      Joined(code, list, p, jmp, q);
      WithSBxFields(code[l], jmp - (l + 1));
      SetJump(l, jmp);
      return list;
    }
  }
}

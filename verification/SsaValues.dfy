// Values of the SSA graph: a word may be poison, a variable without a definition reads as poison. A word of a whole
// warp has one word per lane.
module SsaValues {
  datatype Word = Poison | Num(n: int) | Warp(lanes: seq<Word>)

  type Env = map<nat, Word>

  datatype Value = Var(x: nat) | Lit(w: Word)

  function Val(env: Env, v: Value): Word {
    match v
    case Var(x) => if x in env then env[x] else Poison
    case Lit(w) => w
  }

  // the pure instructions: any total function of opcode and operands
  type Meaning = (nat, seq<Word>) -> Word
}

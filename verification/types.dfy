/** The shared record types of the front-end (types.ts). Only the grade type is used
    by the generator; the user, activity and report records are not part of this model. */
module Types {
  import opened Wrappers

  /** A civil-service grade (`Golongan`): rank II, III or IV, each with steps a to d. */
  datatype Golongan =
    | II_a | II_b | II_c | II_d
    | III_a | III_b | III_c | III_d
    | IV_a | IV_b | IV_c | IV_d

  /** The rank of a grade, 2 to 4. */
  function Rank(g: Golongan): (r: int)
    ensures 2 <= r <= 4
  {
    match g
    case II_a | II_b | II_c | II_d => 2
    case III_a | III_b | III_c | III_d => 3
    case IV_a | IV_b | IV_c | IV_d => 4
  }

  /** The step of a grade within its rank, 'a' to 'd'. */
  function Step(g: Golongan): (c: char)
    ensures 'a' <= c <= 'd'
  {
    match g
    case II_a | III_a | IV_a => 'a'
    case II_b | III_b | IV_b => 'b'
    case II_c | III_c | IV_c => 'c'
    case II_d | III_d | IV_d => 'd'
  }

  /** The Roman numeral of a rank. */
  function Roman(rank: int): string
    requires 2 <= rank <= 4
  {
    if rank == 2 then "II" else if rank == 3 then "III" else "IV"
  }

  /** The literal code of a grade, as the string union type spells it. */
  function Code(g: Golongan): (s: string)
    ensures s == Roman(Rank(g)) + "/" + [Step(g)]
  {
    match g
    case II_a => "II/a"
    case II_b => "II/b"
    case II_c => "II/c"
    case II_d => "II/d"
    case III_a => "III/a"
    case III_b => "III/b"
    case III_c => "III/c"
    case III_d => "III/d"
    case IV_a => "IV/a"
    case IV_b => "IV/b"
    case IV_c => "IV/c"
    case IV_d => "IV/d"
  }

  /** Reads a code back into a grade; any string outside the twelve codes is refused. */
  function FromCode(s: string): Option<Golongan>
  {
    if s == "II/a" then Some(II_a)
    else if s == "II/b" then Some(II_b)
    else if s == "II/c" then Some(II_c)
    else if s == "II/d" then Some(II_d)
    else if s == "III/a" then Some(III_a)
    else if s == "III/b" then Some(III_b)
    else if s == "III/c" then Some(III_c)
    else if s == "III/d" then Some(III_d)
    else if s == "IV/a" then Some(IV_a)
    else if s == "IV/b" then Some(IV_b)
    else if s == "IV/c" then Some(IV_c)
    else if s == "IV/d" then Some(IV_d)
    else None
  }

  /** Every grade's code reads back as that grade. */
  lemma FromCodeOfCode(g: Golongan)
    ensures FromCode(Code(g)) == Some(g)
  {
  }

  /** A string is read as a grade only when it is exactly that grade's code. */
  lemma CodeOfFromCode(s: string, g: Golongan)
    requires FromCode(s) == Some(g)
    ensures Code(g) == s
  {
  }

  /** Distinct grades have distinct codes, so a code names its grade unambiguously. */
  lemma CodeInjective(g: Golongan, h: Golongan)
    requires Code(g) == Code(h)
    ensures g == h
  {
    FromCodeOfCode(g);
    FromCodeOfCode(h);
  }
}

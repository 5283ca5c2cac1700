/**
 * The frozen catalogue of built-in operations (engine.js, FUNCTIONS):
 * one identifier per registry key, the key it is stored under, and the
 * number of parameters its implementation declares (`fref.length`).
 */
module Operations {
  import opened Wrappers

  datatype Op =
    | Add | Subtract | Multiply | Divide
    | Min | Minimum | Max | Maximum
    | Map | Id | Product
    | Foldl | Foldl1 | Foldr | Foldr1 | Scanl | Scanr
    | Filter | Reverse | Head | Tail | Cons | Split | Length
    | ToUpper | ToLower | Every
    | And | Or | Not
    | Gt | Ge | Lt | Le | StrictEq
    | Index | Range | Concat | ElemIndex | Take
    | Trim | TrimLeft | TrimRight
    | TakeWhile | DropWhile | IsTrue | IsFalse

  /** The key under which the operation is registered. */
  function Name(op: Op): string {
    match op
    case Add => "add"
    case Subtract => "subtract"
    case Multiply => "multiply"
    case Divide => "divide"
    case Min => "min"
    case Minimum => "minimum"
    case Max => "max"
    case Maximum => "maximum"
    case Map => "map"
    case Id => "id"
    case Product => "product"
    case Foldl => "foldl"
    case Foldl1 => "foldl1"
    case Foldr => "foldr"
    case Foldr1 => "foldr1"
    case Scanl => "scanl"
    case Scanr => "scanr"
    case Filter => "filter"
    case Reverse => "reverse"
    case Head => "head"
    case Tail => "tail"
    case Cons => "cons"
    case Split => "split"
    case Length => "length"
    case ToUpper => "toUpper"
    case ToLower => "toLower"
    case Every => "every"
    case And => "&&"
    case Or => "||"
    case Not => "!"
    case Gt => ">"
    case Ge => ">="
    case Lt => "<"
    case Le => "<="
    case StrictEq => "=="
    case Index => "!!"
    case Range => ".."
    case Concat => "++"
    case ElemIndex => "elemIndex"
    case Take => "take"
    case Trim => "trim"
    case TrimLeft => "trimLeft"
    case TrimRight => "trimRight"
    case TakeWhile => "takeWhile"
    case DropWhile => "dropWhile"
    case IsTrue => "isTrue"
    case IsFalse => "isFalse"
  }

  /**
   * `FUNCTIONS[fname]`: exact, case-sensitive lookup of a registry key.
   * The only operation a key can name is told apart by the key's length
   * and then by one or two of its characters; one string comparison
   * then confirms it.
   */
  function Lookup(key: string): (r: Option<Op>)
    ensures r.Some? ==> Name(r.value) == key
  {
    match Candidate(key)
    case Some(op) => if Name(op) == key then Some(op) else None
    case None => None
  }

  /** The one operation whose key has the length and the distinguishing characters of `key`, if any. */
  function Candidate(key: string): Option<Op> {
    match |key|
    case 1 =>
      (match key[0]
        case '!' => Some(Not)
        case '>' => Some(Gt)
        case '<' => Some(Lt)
        case _ => None)
    case 2 =>
      (match key[0]
        case 'i' => Some(Id)
        case '&' => Some(And)
        case '|' => Some(Or)
        case '>' => Some(Ge)
        case '<' => Some(Le)
        case '=' => Some(StrictEq)
        case '!' => Some(Index)
        case '.' => Some(Range)
        case '+' => Some(Concat)
        case _ => None)
    case 3 =>
      (match key[2]
        case 'd' => Some(Add)
        case 'n' => Some(Min)
        case 'x' => Some(Max)
        case 'p' => Some(Map)
        case _ => None)
    case 4 =>
      (match key[3]
        case 'd' => Some(Head)
        case 'l' => Some(Tail)
        case 's' => Some(Cons)
        case 'e' => Some(Take)
        case 'm' => Some(Trim)
        case _ => None)
    case 5 =>
      (match (key[0], key[4])
        case ('f', 'l') => Some(Foldl)
        case ('f', 'r') => Some(Foldr)
        case ('s', 'l') => Some(Scanl)
        case ('s', 'r') => Some(Scanr)
        case ('s', 't') => Some(Split)
        case ('e', 'y') => Some(Every)
        case _ => None)
    case 6 =>
      (match key[4]
        case 'd' => Some(Divide)
        case 'l' => Some(Foldl1)
        case 'r' => Some(Foldr1)
        case 'e' => Some(Filter)
        case 't' => Some(Length)
        case 'u' => Some(IsTrue)
        case _ => None)
    case 7 =>
      (match key[2]
        case 'n' => Some(Minimum)
        case 'x' => Some(Maximum)
        case 'o' => Some(Product)
        case 'v' => Some(Reverse)
        case 'U' => Some(ToUpper)
        case 'L' => Some(ToLower)
        case 'F' => Some(IsFalse)
        case _ => None)
    case 8 =>
      (match key[0]
        case 's' => Some(Subtract)
        case 'm' => Some(Multiply)
        case 't' => Some(TrimLeft)
        case _ => None)
    case 9 =>
      (match key[2]
        case 'e' => Some(ElemIndex)
        case 'i' => Some(TrimRight)
        case 'k' => Some(TakeWhile)
        case 'o' => Some(DropWhile)
        case _ => None)
    case _ => None
  }

  /** The declared parameter count of the operation's implementation. */
  function Arity(op: Op): (n: nat)
    ensures 1 <= n <= 3
  {
    match op
    case Minimum | Maximum | Id | Product | Reverse | Head | Tail | Length
      | ToUpper | ToLower | Not | Trim | TrimLeft | TrimRight | IsTrue | IsFalse => 1
    case Foldl | Foldr | Scanl | Scanr => 3
    case _ => 2
  }

  /** Whether the operation takes a callable among its parameters. */
  predicate TakesCallable(op: Op) {
    op in {Map, Foldl, Foldl1, Foldr, Foldr1, Scanl, Scanr, Filter, Every, ElemIndex, TakeWhile, DropWhile}
  }

  /**
   * Every operation is registered under its own name and under no other key.
   */
  lemma LookupName(op: Op, key: string)
    ensures Lookup(key) == Some(op) <==> Name(op) == key
  {
    if Name(op) == key {
      LookupOwnName(op);
    }
  }

  lemma LookupOwnName(op: Op)
    ensures Lookup(Name(op)) == Some(op)
  {
    match op
    case Not | Gt | Lt => CandidateNameOfLength1(op);
    case Id | And | Or | Ge | Le | StrictEq | Index | Range | Concat => CandidateNameOfLength2(op);
    case Add | Min | Max | Map => CandidateNameOfLength3(op);
    case Head | Tail | Cons | Take | Trim => CandidateNameOfLength4(op);
    case Foldl | Foldr | Scanl | Scanr | Split | Every => CandidateNameOfLength5(op);
    case Divide | Foldl1 | Foldr1 | Filter | Length | IsTrue => CandidateNameOfLength6(op);
    case Minimum | Maximum | Product | Reverse | ToUpper | ToLower | IsFalse => CandidateNameOfLength7(op);
    case Subtract | Multiply | TrimLeft => CandidateNameOfLength8(op);
    case ElemIndex | TrimRight | TakeWhile | DropWhile => CandidateNameOfLength9(op);
  }

  /*
   * CandidateNameOfLength1 to CandidateNameOfLength9 split LookupOwnName by
   * key length, so that each proof only unfolds the keys of one length.
   */

  /** Every key of length 1 is its own candidate. */
  lemma CandidateNameOfLength1(op: Op)
    requires op == Not || op == Gt || op == Lt
    ensures Candidate(Name(op)) == Some(op)
  {
    match op
    case Not =>
    case Gt =>
    case Lt =>
  }

  lemma CandidateNameOfLength2(op: Op)
    requires op == Id || op == And || op == Or || op == Ge || op == Le || op == StrictEq || op == Index || op == Range || op == Concat
    ensures Candidate(Name(op)) == Some(op)
  {
    match op
    case Id =>
    case And =>
    case Or =>
    case Ge =>
    case Le =>
    case StrictEq =>
    case Index =>
    case Range =>
    case Concat =>
  }

  lemma CandidateNameOfLength3(op: Op)
    requires op == Add || op == Min || op == Max || op == Map
    ensures Candidate(Name(op)) == Some(op)
  {
    match op
    case Add =>
    case Min =>
    case Max =>
    case Map =>
  }

  lemma CandidateNameOfLength4(op: Op)
    requires op == Head || op == Tail || op == Cons || op == Take || op == Trim
    ensures Candidate(Name(op)) == Some(op)
  {
    match op
    case Head =>
    case Tail =>
    case Cons =>
    case Take =>
    case Trim =>
  }

  lemma CandidateNameOfLength5(op: Op)
    requires op == Foldl || op == Foldr || op == Scanl || op == Scanr || op == Split || op == Every
    ensures Candidate(Name(op)) == Some(op)
  {
    match op
    case Foldl =>
    case Foldr =>
    case Scanl =>
    case Scanr =>
    case Split =>
    case Every =>
  }

  lemma CandidateNameOfLength6(op: Op)
    requires op == Divide || op == Foldl1 || op == Foldr1 || op == Filter || op == Length || op == IsTrue
    ensures Candidate(Name(op)) == Some(op)
  {
    match op
    case Divide =>
    case Foldl1 =>
    case Foldr1 =>
    case Filter =>
    case Length =>
    case IsTrue =>
  }

  lemma CandidateNameOfLength7(op: Op)
    requires op == Minimum || op == Maximum || op == Product || op == Reverse || op == ToUpper || op == ToLower || op == IsFalse
    ensures Candidate(Name(op)) == Some(op)
  {
    match op
    case Minimum =>
    case Maximum =>
    case Product =>
    case Reverse =>
    case ToUpper =>
    case ToLower =>
    case IsFalse =>
  }

  lemma CandidateNameOfLength8(op: Op)
    requires op == Subtract || op == Multiply || op == TrimLeft
    ensures Candidate(Name(op)) == Some(op)
  {
    match op
    case Subtract =>
    case Multiply =>
    case TrimLeft =>
  }

  lemma CandidateNameOfLength9(op: Op)
    requires op == ElemIndex || op == TrimRight || op == TakeWhile || op == DropWhile
    ensures Candidate(Name(op)) == Some(op)
  {
    match op
    case ElemIndex =>
    case TrimRight =>
    case TakeWhile =>
    case DropWhile =>
  }
}

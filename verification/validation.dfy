/** The request check every endpoint runs before touching a board: the JSON
    value must be a list of nine lists of nine integers from 0 to 9. */
module Validation {
  import opened Wrappers
  import opened Grid

  /** A decoded JSON value as Python sees it after `request.get_json`. A
      number with a fraction or exponent decodes to a `float`, whose value
      plays no part here. */
  datatype Json =
    | JNull
    | JBool(b: bool)
    | JInt(i: int)
    | JFloat(text: string)
    | JString(s: string)
    | JList(items: seq<Json>)
    | JObject(fields: seq<(string, Json)>)

  /** `isinstance(v, int)` and the value compared against 0 and 9: `bool`
      is a subclass of `int`, so `true` and `false` count as 1 and 0. */
  function IntValue(v: Json): (r: Option<int>)
    ensures r.Some? <==> v.JInt? || v.JBool?
    ensures v.JInt? ==> r == Some(v.i)
    ensures v.JBool? ==> r == Some(if v.b then 1 else 0)
  {
    match v
    case JInt(i) => Some(i)
    case JBool(b) => Some(if b then 1 else 0)
    case _ => None
  }

  predicate CellOk(v: Json) {
    IntValue(v).Some? && 0 <= IntValue(v).value <= 9
  }

  predicate RowOk(v: Json) {
    v.JList? && |v.items| == 9 && forall k :: 0 <= k < 9 ==> CellOk(v.items[k])
  }

  /** Reference meaning of a valid board: nine rows, each nine cells, each
      an integer (or boolean) from 0 to 9. */
  predicate WellFormed(board: Json) {
    board.JList? && |board.items| == 9 && forall r :: 0 <= r < 9 ==> RowOk(board.items[r])
  }

  /** `validate_board`: the shape check on the outer list, then each row's
      shape, then each cell, returning `False` at the first failure. */
  method ValidateBoard(board: Json) returns (ok: bool)
    ensures ok <==> WellFormed(board)
  {
    if !board.JList? || |board.items| != 9 {
      return false;
    }
    var r := 0;
    while r < 9
      invariant 0 <= r <= 9
      invariant forall i :: 0 <= i < r ==> RowOk(board.items[i])
    {
      var row := board.items[r];
      if !row.JList? || |row.items| != 9 {
        return false;
      }
      var k := 0;
      while k < 9
        invariant 0 <= k <= 9
        invariant forall j :: 0 <= j < k ==> CellOk(row.items[j])
      {
        var cell := row.items[k];
        if !(cell.JInt? || cell.JBool?) || IntValue(cell).value < 0 || IntValue(cell).value > 9 {
          return false;
        }
        k := k + 1;
      }
      r := r + 1;
    }
    return true;
  }

  /** The board a valid request carries, as the solvers index it. */
  function ToBoard(board: Json): (b: Board)
    requires WellFormed(board)
    ensures IsBoard(b)
    ensures forall c :: InGrid(c) ==> 0 <= At(b, c) <= 9 && Some(At(b, c)) == IntValue(board.items[c.0].items[c.1])
  {
    seq(9, i requires 0 <= i < 9 => seq(9, j requires 0 <= j < 9 => IntValue(board.items[i].items[j]).value))
  }
}

/** PHP's `implode($glue, $pieces)` on a list of strings. */
module Implode {

  /** The pieces in order, with `glue` between each pair of neighbours. */
  function Join(pieces: seq<string>, glue: string): string
  {
    if |pieces| == 0 then ""
    else if |pieces| == 1 then pieces[0]
    else pieces[0] + glue + Join(pieces[1..], glue)
  }

  function TotalLength(pieces: seq<string>): nat
  {
    if pieces == [] then 0 else |pieces[0]| + TotalLength(pieces[1..])
  }

  /** Joining nothing gives the empty string; one piece is returned without glue. */
  lemma JoinSmall(glue: string)
    ensures Join([], glue) == ""
    ensures forall x :: Join([x], glue) == x
  {
  }

  /** Joining two non-empty lists is joining each and gluing the results once. */
  lemma {:induction false} JoinConcat(xs: seq<string>, ys: seq<string>, glue: string)
    requires xs != [] && ys != []
    ensures Join(xs + ys, glue) == Join(xs, glue) + glue + Join(ys, glue)
    decreases |xs|
  {
    if |xs| == 1 {
      assert (xs + ys)[1..] == ys;
    } else {
      assert (xs + ys)[1..] == xs[1..] + ys;
      JoinConcat(xs[1..], ys, glue);
    }
  }

  /** Appending one more piece extends the joined text by the glue and that piece. */
  lemma JoinAppend(xs: seq<string>, y: string, glue: string)
    ensures Join(xs + [y], glue) == if xs == [] then y else Join(xs, glue) + glue + y
  {
    if xs == [] {
      assert xs + [y] == [y];
    } else {
      JoinConcat(xs, [y], glue);
    }
  }

  /** The joined text holds every piece once and the glue once per gap. */
  lemma {:induction false} JoinLength(pieces: seq<string>, glue: string)
    requires pieces != []
    ensures |Join(pieces, glue)| == TotalLength(pieces) + (|pieces| - 1) * |glue|
  {
    if |pieces| > 1 {
      JoinLength(pieces[1..], glue);
    } else {
      assert pieces[1..] == [];
    }
  }
}

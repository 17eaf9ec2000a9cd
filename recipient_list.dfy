/** The formatting of a recipient list (`to`, `cc` or `bcc`): the addresses
    are joined with the separator ", " in input order, as JavaScript's
    `Array.prototype.join(', ')` does. */
module RecipientList {

  const Separator: string := ", "

  /** Total number of characters in the addresses of `xs`. */
  function TotalLength(xs: seq<string>): nat
  {
    if xs == [] then 0 else |xs[0]| + TotalLength(xs[1..])
  }

  /** `xs.join(', ')`: one address is passed through unchanged, several are
      separated by ", ". */
  function Join(xs: seq<string>): (r: string)
    ensures |xs| == 0 ==> r == ""
    ensures |xs| == 1 ==> r == xs[0]
    ensures |xs| >= 1 ==> xs[0] <= r
    ensures |xs| >= 1 ==> |r| == TotalLength(xs) + |Separator| * (|xs| - 1)
  {
    if |xs| == 0 then ""
    else if |xs| == 1 then xs[0]
    else xs[0] + Separator + Join(xs[1..])
  }

  /** The inverse of `Join`: cuts a string at every occurrence of ", ",
      scanning from the left. */
  function Split(s: string): (r: seq<string>)
    ensures |r| >= 1
    decreases |s|
  {
    if s == [] then [""]
    else if |s| >= 2 && s[0] == ',' && s[1] == ' ' then [""] + Split(s[2..])
    else
      var rest := Split(s[1..]);
      [[s[0]] + rest[0]] + rest[1..]
  }

  /** An address that cannot be mistaken for a separator. */
  predicate NoComma(x: string)
  {
    forall i :: 0 <= i < |x| ==> x[i] != ','
  }

  /** Splitting a string that starts with a comma-free address keeps that
      address at the front of the first piece. */
  lemma {:induction false} SplitAfterAddress(x: string, t: string)
    requires NoComma(x)
    ensures Split(x + t) == [x + Split(t)[0]] + Split(t)[1..]
    decreases |x|
  {
    if x == [] {
      assert x + t == t;
      assert x + Split(t)[0] == Split(t)[0];
      assert [Split(t)[0]] + Split(t)[1..] == Split(t);
    } else {
      var s := x + t;
      assert s[0] == x[0] && s[0] != ',';
      assert s[1..] == x[1..] + t;
      SplitAfterAddress(x[1..], t);
      assert [s[0]] + (x[1..] + Split(t)[0]) == x + Split(t)[0];
    }
  }

  /** Joining then splitting gives back the addresses, in the same order:
      `Join` loses nothing and reorders nothing. */
  lemma {:induction false} SplitJoin(xs: seq<string>)
    requires |xs| >= 1
    requires forall i :: 0 <= i < |xs| ==> NoComma(xs[i])
    ensures Split(Join(xs)) == xs
    decreases |xs|
  {
    if |xs| == 1 {
      SplitAfterAddress(xs[0], "");
      assert xs[0] + "" == xs[0];
    } else {
      var rest := Join(xs[1..]);
      assert Join(xs) == xs[0] + (Separator + rest);
      SplitAfterAddress(xs[0], Separator + rest);
      var t := Separator + rest;
      assert t[2..] == rest;
      SplitJoin(xs[1..]);
      assert Split(t) == [""] + xs[1..];
      assert xs[0] + "" == xs[0];
    }
  }

  /** Two address lists with comma-free addresses format to the same string
      only when they are the same list. */
  lemma JoinInjective(xs: seq<string>, ys: seq<string>)
    requires |xs| >= 1 && |ys| >= 1
    requires forall i :: 0 <= i < |xs| ==> NoComma(xs[i])
    requires forall i :: 0 <= i < |ys| ==> NoComma(ys[i])
    ensures Join(xs) == Join(ys) <==> xs == ys
  {
    SplitJoin(xs);
    SplitJoin(ys);
  }
}

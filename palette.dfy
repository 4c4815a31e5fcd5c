/** The four coloured pads of the board and the `value` each pad element carries. */
module Palette {
  import opened Wrappers

  datatype Color = Red | Yellow | Green | Blue

  /** The pad element's `value`: what a click on it reports as the target's value,
      and what the input collector pushes when that pad is chosen. */
  function Name(c: Color): string {
    match c
    case Red => "red"
    case Yellow => "yellow"
    case Green => "green"
    case Blue => "blue"
  }

  /** The pad whose value is `v`, if there is one. */
  function Named(v: string): (r: Option<Color>)
    ensures r.Some? ==> Name(r.value) == v
  {
    if v == "red" then Some(Red)
    else if v == "yellow" then Some(Yellow)
    else if v == "green" then Some(Green)
    else if v == "blue" then Some(Blue)
    else None
  }

  /** Named inverts Name: a value names a pad exactly when it is that pad's value. */
  lemma NamedIffName(v: string, c: Color)
    ensures Named(v) == Some(c) <==> v == Name(c)
  {
  }

  /** The values sent over the wire for a sequence of chosen pads. */
  function Names(cs: seq<Color>): (vs: seq<string>)
    ensures |vs| == |cs|
    ensures forall i :: 0 <= i < |cs| ==> vs[i] == Name(cs[i])
  {
    if cs == [] then [] else Names(cs[..|cs| - 1]) + [Name(cs[|cs| - 1])]
  }

  lemma NamesInjective(a: seq<Color>, b: seq<Color>)
    requires Names(a) == Names(b)
    ensures a == b
  {
    assert |a| == |b|;
    forall i | 0 <= i < |a| ensures a[i] == b[i] {
      assert Name(a[i]) == Name(b[i]);
    }
  }
}

/** Which file of the reply directory `Converter.load` reads: the last, in
    sorted order, of the entries matching `index-*`. */
module IndexFiles {
  import opened PyStrings

  const IndexPrefix: string := "index-"

  /** The entry names the pattern `index-*` matches: `index-` followed by
      any text. */
  function IsIndexName(name: string): (b: bool)
    ensures b <==> exists rest :: name == IndexPrefix + rest
  {
    assert forall rest :: (IndexPrefix + rest)[..|IndexPrefix|] == IndexPrefix;
    if |IndexPrefix| <= |name| && name[..|IndexPrefix|] == IndexPrefix then
      assert name == IndexPrefix + name[|IndexPrefix|..];
      true
    else
      false
  }

  /** The matching entries, in listing order. */
  function IndexNames(listing: seq<string>): (r: seq<string>)
    ensures forall n :: n in r <==> n in listing && IsIndexName(n)
  {
    if listing == [] then []
    else (if IsIndexName(listing[0]) then [listing[0]] else []) + IndexNames(listing[1..])
  }

  /** The last element of `sorted(names)`: the greatest name. */
  function Newest(names: seq<string>): (r: string)
    requires names != []
    ensures r in names
    ensures forall n :: n in names ==> LessEq(n, r)
  {
    LessEqTotal(names[0], names[0]);
    if |names| == 1 then names[0]
    else
      var rest := Newest(names[1..]);
      LessEqTotal(names[0], rest);
      assert forall n :: n in names[1..] && !LessEq(names[0], rest) ==> LessEq(n, names[0]) by {
        forall n | n in names[1..] && !LessEq(names[0], rest) ensures LessEq(n, names[0]) {
          LessEqTransitive(n, rest, names[0]);
        }
      }
      assert forall n :: n in names ==> n == names[0] || n in names[1..];
      if LessEq(names[0], rest) then rest else names[0]
  }

  /** No other name can stand last: the greatest name is unique. */
  lemma NewestUnique(names: seq<string>, m: string)
    requires m in names && forall n :: n in names ==> LessEq(n, m)
    ensures m == Newest(names)
  {
    LessEqAntisymmetric(m, Newest(names));
  }
}

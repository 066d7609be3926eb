/** Values shared by every renderer and by the generation driver. */
module Files {

  /** One generated file: a destination-relative path and its rendered text. */
  datatype TemplateFile = TemplateFile(relativePath: string, content: string)

  /** The outcome of a Kotlin call that may throw: a value, or the exception's message. */
  datatype Result<T> = Ok(value: T) | Thrown(message: string)

  /** The language-neutral type reference (`VrapType`) the renderers receive. */
  datatype VrapType =
    | Scalar(scalarType: string)
    | Enum(pkg: string, simpleClassName: string)
    | Object(pkg: string, simpleClassName: string)
    | Any(baseType: string)
    | Array(itemType: VrapType)
    | Nil

  datatype Option<T> = None | Some(value: T) {
    function GetOr(default: T): T
    {
      match this
      case Some(v) => v
      case None => default
    }
  }

  /** Evaluating a list of throwing computations in order: the first exception
      ends the evaluation. */
  function AllOk<T>(rs: seq<Result<T>>): (r: Result<seq<T>>)
    ensures r.Ok? ==> |r.value| == |rs|
  {
    if rs == [] then Ok([])
    else match rs[0]
      case Thrown(m) => Thrown(m)
      case Ok(v) =>
        (match AllOk(rs[1..])
         case Ok(vs) => Ok([v] + vs)
         case Thrown(m) => Thrown(m))
  }

  /** The list succeeds exactly when every computation does, and then holds their values. */
  lemma {:induction false} AllOkSucceeds<T>(rs: seq<Result<T>>)
    ensures AllOk(rs).Ok? <==> forall i :: 0 <= i < |rs| ==> rs[i].Ok?
    ensures AllOk(rs).Ok? ==> forall i :: 0 <= i < |rs| ==> AllOk(rs).value[i] == rs[i].value
    ensures AllOk(rs).Thrown? ==> exists i :: 0 <= i < |rs| && rs[i].Thrown? && AllOk(rs).message == rs[i].message
  {
    if rs != [] {
      AllOkSucceeds(rs[1..]);
      if AllOk(rs[1..]).Thrown? && rs[0].Ok? {
        var i :| 0 <= i < |rs[1..]| && rs[1..][i].Thrown? && AllOk(rs[1..]).message == rs[1..][i].message;
        assert rs[i + 1] == rs[1..][i];
      }
      if !AllOk(rs).Ok? && rs[0].Ok? {
        var i :| 0 <= i < |rs[1..]| && rs[1..][i].Thrown?;
        assert rs[i + 1].Thrown?;
      }
      if AllOk(rs).Ok? {
        forall i | 0 <= i < |rs| ensures rs[i].Ok? && AllOk(rs).value[i] == rs[i].value {
          if i > 0 { assert rs[i] == rs[1..][i - 1]; }
        }
      }
    }
  }
}

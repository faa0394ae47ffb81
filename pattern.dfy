/** Filename patterns: the subset of Python's `str.format` that `getFilenameFromPattern` relies
    on, with the three named fields `{PACKNAME}`, `{BASENAME}` and `{EXT}`. */
module Patterns {
  import opened Wrappers
  import opened Text

  datatype Field = PackName | BaseName | Ext

  /** The values substituted for the three fields. */
  datatype Values = Values(packName: string, baseName: string, ext: string)

  /** Why `str.format` raises: a `{` without its `}`, a lone `}`, or a field it cannot fill. */
  datatype FormatError = UnmatchedOpen | SingleClose | UnknownField(name: string)

  function FieldName(f: Field): string {
    match f
    case PackName => "PACKNAME"
    case BaseName => "BASENAME"
    case Ext => "EXT"
  }

  function FieldOf(name: string): (r: Option<Field>)
    ensures r.Some? ==> FieldName(r.value) == name
  {
    if name == "PACKNAME" then Some(PackName)
    else if name == "BASENAME" then Some(BaseName)
    else if name == "EXT" then Some(Ext)
    else None
  }

  function ValueOf(f: Field, v: Values): string {
    match f
    case PackName => v.packName
    case BaseName => v.baseName
    case Ext => v.ext
  }

  function Prepend(s: string, r: Result<string, FormatError>): Result<string, FormatError> {
    match r
    case Success(t) => Success(s + t)
    case Failure(e) => r
  }

  /** `pattern.format(PACKNAME=..., BASENAME=..., EXT=...)`: `{{` and `}}` stand for braces,
      `{NAME}` for the value of a field. */
  function Format(p: string, v: Values): Result<string, FormatError>
    decreases |p|
  {
    if p == [] then Success([])
    else if p[0] == '{' && |p| >= 2 && p[1] == '{' then Prepend("{", Format(p[2..], v))
    else if p[0] == '{' then
      var close := Find(p[1..], '}');
      if close == -1 then Failure(UnmatchedOpen)
      else
        var name := p[1..1 + close];
        match FieldOf(name)
        case None => Failure(UnknownField(name))
        case Some(f) => Prepend(ValueOf(f, v), Format(p[close + 2..], v))
    else if p[0] == '}' && |p| >= 2 && p[1] == '}' then Prepend("}", Format(p[2..], v))
    else if p[0] == '}' then Failure(SingleClose)
    else Prepend([p[0]], Format(p[1..], v))
  }

  /** A pattern as a sequence of literal characters and fields. */
  datatype Piece = Lit(c: char) | Hole(f: Field)

  /** The pattern text for a piece, with braces doubled. */
  function RenderPiece(x: Piece): string {
    match x
    case Lit(c) => if c == '{' then "{{" else if c == '}' then "}}" else [c]
    case Hole(f) => "{" + FieldName(f) + "}"
  }

  function Render(ps: seq<Piece>): string
    decreases |ps|
  {
    if ps == [] then [] else RenderPiece(ps[0]) + Render(ps[1..])
  }

  /** The intended text of one piece: a literal as it is, a field replaced by its value. */
  function ExpandPiece(x: Piece, v: Values): string {
    match x
    case Lit(c) => [c]
    case Hole(f) => ValueOf(f, v)
  }

  function Expand(ps: seq<Piece>, v: Values): string
    decreases |ps|
  {
    if ps == [] then []
    else ExpandPiece(ps[0], v) + Expand(ps[1..], v)
  }

  lemma FormatField(f: Field, rest: string, v: Values)
    ensures Format("{" + FieldName(f) + "}" + rest, v) == Prepend(ValueOf(f, v), Format(rest, v))
  {
    var name := FieldName(f);
    var p := "{" + name + "}" + rest;
    assert p[1..] == name + "}" + rest;
    FindFirst(name, '}', rest);
    assert p[1..1 + |name|] == name;
    assert p[|name| + 2..] == rest;
  }

  lemma FormatPiece(x: Piece, rest: string, v: Values)
    ensures Format(RenderPiece(x) + rest, v) == Prepend(ExpandPiece(x, v), Format(rest, v))
  {
    match x
    case Lit(c) =>
      var p := RenderPiece(x) + rest;
      if c == '{' || c == '}' {
        assert p[2..] == rest;
      } else {
        assert p[1..] == rest;
      }
    case Hole(f) =>
      FormatField(f, rest, v);
  }

  /** Formatting a rendered pattern never fails and gives the intended text. */
  lemma {:induction false} FormatRender(ps: seq<Piece>, v: Values)
    ensures Format(Render(ps), v) == Success(Expand(ps, v))
    decreases |ps|
  {
    if ps != [] {
      FormatRender(ps[1..], v);
      FormatPiece(ps[0], Render(ps[1..]), v);
    }
  }

  /** A pattern without braces is its own result. */
  lemma {:induction false} FormatPlain(p: string, v: Values)
    requires '{' !in p && '}' !in p
    ensures Format(p, v) == Success(p)
    decreases |p|
  {
    if p != [] {
      assert '{' !in p[1..] && '}' !in p[1..] by {
        assert forall c :: c in p[1..] ==> c in p;
      }
      FormatPlain(p[1..], v);
      assert [p[0]] + p[1..] == p;
    }
  }

  lemma PackBaseExtText()
    ensures "{PACKNAME}_{BASENAME}{EXT}"
         == "{" + FieldName(PackName) + "}" + (RenderPiece(Lit('_')) + ("{" + FieldName(BaseName) + "}" + ("{" + FieldName(Ext) + "}" + [])))
  {
    assert RenderPiece(Lit('_')) == "_";
  }

  /** The pattern `{PACKNAME}_{BASENAME}{EXT}` gives the pack name, an underscore, the base name
      and the extension. */
  lemma PackBaseExt(p: string, v: Values)
    requires p == "{PACKNAME}_{BASENAME}{EXT}"
    ensures Format(p, v) == Success(v.packName + "_" + v.baseName + v.ext)
  {
    var t3 := "{" + FieldName(Ext) + "}" + [];
    FormatField(Ext, [], v);
    var r3 := Format(t3, v);
    assert r3 == Success(v.ext + []);
    var t2 := "{" + FieldName(BaseName) + "}" + t3;
    FormatField(BaseName, t3, v);
    var r2 := Format(t2, v);
    assert r2 == Success(v.baseName + (v.ext + []));
    var t1 := RenderPiece(Lit('_')) + t2;
    FormatPiece(Lit('_'), t2, v);
    var r1 := Format(t1, v);
    assert r1 == Success("_" + (v.baseName + (v.ext + [])));
    var t0 := "{" + FieldName(PackName) + "}" + t1;
    FormatField(PackName, t1, v);
    var r0 := Format(t0, v);
    assert r0 == Success(v.packName + ("_" + (v.baseName + (v.ext + []))));
    assert v.packName + ("_" + (v.baseName + (v.ext + []))) == v.packName + "_" + v.baseName + v.ext;
    PackBaseExtText();
    assert p == t0;
  }
}

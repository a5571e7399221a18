/** The two argument helpers of pkg/client/stress.go that `Stress` applies
    before a run: the choice between a literal request body and a body file
    (`getBody`), and the parsing of the `-headers` argument
    (`getRequestHeaders`). */
module Config {
  import opened Strings

  /** Where the request body comes from. */
  datatype Body = Literal(text: string) | FromFile(path: string)

  /** The `-data` argument that selects a body source: a file path is
      written with a leading '@'. */
  function Param(body: Body): string
  {
    match body
    case Literal(text) => text
    case FromFile(path) => "@" + path
  }

  /** `getBody` without the file read: a parameter that does not start with
      '@' is the body itself, otherwise the rest of it names the file. The
      parameter is what the source indexes at 0, so it is never empty
      (`Stress` calls this only for a non-empty `-data`). */
  function GetBody(param: string): (body: Body)
    requires |param| > 0
    ensures body.Literal? <==> param[0] != '@'
    ensures Param(body) == param
  {
    if param[0] != '@' then Literal(param)
    else
      assert param == "@" + param[1..];
      FromFile(param[1..])
  }

  /** Choosing a body source and writing its parameter back are inverse
      for every source whose parameter is unambiguous: a literal body that is
      non-empty and does not start with '@'. */
  lemma GetBodyParam(body: Body)
    requires body.Literal? ==> |body.text| > 0 && body.text[0] != '@'
    ensures |Param(body)| > 0 && GetBody(Param(body)) == body
  {
    if body.FromFile? {
      assert Param(body)[1..] == body.path;
    }
  }

  /** The outcome of `getRequestHeaders`: the header map, or the first piece
      that has no '=' (the source prints it and exits with status 1). */
  datatype Headers = Parsed(headers: map<string, string>) | Invalid(piece: string)

  /** A piece splits into at least a name and a value. */
  predicate WellFormed(piece: string)
  {
    |Split(piece, '=')| >= 2
  }

  /** The header name of a piece: the text before its first '='. */
  function Key(piece: string): string
    requires WellFormed(piece)
  {
    Split(piece, '=')[0]
  }

  /** The header value of a piece: the text between its first and second
      '='; anything after a second '=' is dropped. */
  function Value(piece: string): string
    requires WellFormed(piece)
  {
    Split(piece, '=')[1]
  }

  /** The headers of the comma-separated pieces, taken in order: a later
      piece overwrites an earlier one with the same name, and the first
      piece without '=' makes the whole argument invalid. */
  function HeadersOf(pieces: seq<string>): Headers
  {
    if |pieces| == 0 then Parsed(map[])
    else
      var last := pieces[|pieces| - 1];
      match HeadersOf(pieces[..|pieces| - 1])
      case Invalid(p) => Invalid(p)
      case Parsed(m) =>
        if !WellFormed(last) then Invalid(last)
        else Parsed(m[Key(last) := Value(last)])
  }

  /** `getRequestHeaders`: the loop over the comma-separated pieces. */
  method GetRequestHeaders(param: string) returns (result: Headers)
    ensures result == HeadersOf(Split(param, ','))
  {
    var pieces := Split(param, ',');
    var headers: map<string, string> := map[];
    var i := 0;
    while i < |pieces|
      invariant 0 <= i <= |pieces|
      invariant HeadersOf(pieces[..i]) == Parsed(headers)
    {
      var kvPair := Split(pieces[i], '=');
      assert pieces[..i + 1][..i] == pieces[..i];
      if |kvPair| < 2 {
        InvalidPersists(pieces, i + 1);
        return Invalid(pieces[i]);
      }
      headers := headers[kvPair[0] := kvPair[1]];
      i := i + 1;
    }
    assert pieces[..i] == pieces;
    result := Parsed(headers);
  }

  /** Once a prefix is invalid, the whole list is, with the same piece. */
  lemma {:induction false} InvalidPersists(pieces: seq<string>, n: nat)
    requires n <= |pieces| && HeadersOf(pieces[..n]).Invalid?
    ensures HeadersOf(pieces) == HeadersOf(pieces[..n])
    decreases |pieces| - n
  {
    if n < |pieces| {
      assert pieces[..n + 1][..n] == pieces[..n];
      InvalidPersists(pieces, n + 1);
    } else {
      assert pieces[..n] == pieces;
    }
  }

  /** The argument is invalid exactly when some piece lacks a '=', and the
      piece reported is the first such piece. */
  lemma {:induction false} HeadersInvalid(pieces: seq<string>)
    ensures HeadersOf(pieces).Invalid? <==> exists i :: 0 <= i < |pieces| && !WellFormed(pieces[i])
    ensures HeadersOf(pieces).Invalid? ==>
      exists i :: 0 <= i < |pieces| && pieces[i] == HeadersOf(pieces).piece && !WellFormed(pieces[i])
        && forall j :: 0 <= j < i ==> WellFormed(pieces[j])
  {
    if |pieces| > 0 {
      var n := |pieces|;
      var prefix := pieces[..n - 1];
      var last := pieces[n - 1];
      HeadersInvalid(prefix);
      assert forall i :: 0 <= i < n - 1 ==> prefix[i] == pieces[i];
      match HeadersOf(prefix)
      case Invalid(p) =>
        assert HeadersOf(pieces) == Invalid(p);
        var i :| 0 <= i < n - 1 && prefix[i] == p && !WellFormed(prefix[i])
          && forall j :: 0 <= j < i ==> WellFormed(prefix[j]);
        assert pieces[i] == p && !WellFormed(pieces[i]);
      case Parsed(m) =>
        assert forall i :: 0 <= i < n - 1 ==> WellFormed(pieces[i]);
        if !WellFormed(last) {
          assert HeadersOf(pieces) == Invalid(last);
          assert pieces[n - 1] == last;
        } else {
          assert HeadersOf(pieces).Parsed?;
        }
    }
  }

  /** A valid argument has no piece without '='. */
  lemma {:induction false} HeadersParsedWellFormed(pieces: seq<string>)
    requires HeadersOf(pieces).Parsed?
    ensures forall i :: 0 <= i < |pieces| ==> WellFormed(pieces[i])
  {
    HeadersInvalid(pieces);
  }

  /** A valid argument names exactly the headers its pieces name. */
  lemma {:induction false} HeadersKeys(pieces: seq<string>)
    requires HeadersOf(pieces).Parsed?
    ensures forall k :: k in HeadersOf(pieces).headers <==>
      exists i :: 0 <= i < |pieces| && WellFormed(pieces[i]) && Key(pieces[i]) == k
  {
    if |pieces| > 0 {
      var n := |pieces|;
      var prefix := pieces[..n - 1];
      var last := pieces[n - 1];
      assert HeadersOf(prefix).Parsed?;
      HeadersKeys(prefix);
      var m := HeadersOf(prefix).headers;
      assert WellFormed(last);
      assert HeadersOf(pieces).headers == m[Key(last) := Value(last)];
      forall k
        ensures k in HeadersOf(pieces).headers <==>
          exists i :: 0 <= i < n && WellFormed(pieces[i]) && Key(pieces[i]) == k
      {
        if k in m {
          var i :| 0 <= i < n - 1 && WellFormed(prefix[i]) && Key(prefix[i]) == k;
          assert prefix[i] == pieces[i];
        }
        if exists i :: 0 <= i < n && WellFormed(pieces[i]) && Key(pieces[i]) == k {
          var i :| 0 <= i < n && WellFormed(pieces[i]) && Key(pieces[i]) == k;
          if i < n - 1 {
            assert prefix[i] == pieces[i];
          }
        }
      }
    }
  }

  /** In a valid argument each header carries the value of the last piece
      that names it. */
  lemma {:induction false} HeadersLastWins(pieces: seq<string>)
    requires HeadersOf(pieces).Parsed?
    ensures forall i :: 0 <= i < |pieces| && WellFormed(pieces[i]) && LastOfKey(pieces, i) ==>
      Key(pieces[i]) in HeadersOf(pieces).headers
      && HeadersOf(pieces).headers[Key(pieces[i])] == Value(pieces[i])
  {
    if |pieces| > 0 {
      var n := |pieces|;
      var prefix := pieces[..n - 1];
      var last := pieces[n - 1];
      assert HeadersOf(prefix).Parsed?;
      HeadersLastWins(prefix);
      var m := HeadersOf(prefix).headers;
      assert WellFormed(last);
      assert HeadersOf(pieces).headers == m[Key(last) := Value(last)];
      forall i | 0 <= i < n - 1 && WellFormed(pieces[i]) && LastOfKey(pieces, i)
        ensures Key(pieces[i]) in HeadersOf(pieces).headers
          && HeadersOf(pieces).headers[Key(pieces[i])] == Value(pieces[i])
      {
        assert prefix[i] == pieces[i];
        assert Key(last) != Key(pieces[i]);
        forall j | i < j < n - 1 && WellFormed(prefix[j])
          ensures Key(prefix[j]) != Key(prefix[i])
        {
          assert prefix[j] == pieces[j];
        }
        assert LastOfKey(prefix, i);
      }
    }
  }

  /** No later piece names the same header as piece `i`. */
  predicate LastOfKey(pieces: seq<string>, i: nat)
    requires i < |pieces| && WellFormed(pieces[i])
  {
    forall j :: i < j < |pieces| && WellFormed(pieces[j]) ==> Key(pieces[j]) != Key(pieces[i])
  }

  /** The `-headers` text for a list of name/value pairs: "k1=v1,k2=v2". */
  function Render(pairs: seq<(string, string)>): string
  {
    Join(Pieces(pairs), ',')
  }

  function Pieces(pairs: seq<(string, string)>): (pieces: seq<string>)
    ensures |pieces| == |pairs|
  {
    if |pairs| == 0 then []
    else Pieces(pairs[..|pairs| - 1]) + [pairs[|pairs| - 1].0 + "=" + pairs[|pairs| - 1].1]
  }

  /** The map a list of pairs denotes when later pairs win. */
  function MapOf(pairs: seq<(string, string)>): map<string, string>
  {
    if |pairs| == 0 then map[]
    else MapOf(pairs[..|pairs| - 1])[pairs[|pairs| - 1].0 := pairs[|pairs| - 1].1]
  }

  /** Names and values that contain neither ',' nor '='. */
  predicate Plain(pairs: seq<(string, string)>)
  {
    forall i :: 0 <= i < |pairs| ==>
      ',' !in pairs[i].0 && '=' !in pairs[i].0 && ',' !in pairs[i].1 && '=' !in pairs[i].1
  }

  lemma {:induction false} PiecesPlain(pairs: seq<(string, string)>)
    requires Plain(pairs)
    ensures Separated(Pieces(pairs), ',')
    ensures forall i :: 0 <= i < |pairs| ==> Split(Pieces(pairs)[i], '=') == [pairs[i].0, pairs[i].1]
  {
    if |pairs| > 0 {
      var prefix := pairs[..|pairs| - 1];
      var (k, v) := pairs[|pairs| - 1];
      assert Plain(prefix);
      PiecesPlain(prefix);
      assert Join([k, v], '=') == k + "=" + v;
      SplitJoin([k, v], '=');
    }
  }

  lemma {:induction false} HeadersOfPieces(pairs: seq<(string, string)>)
    requires Plain(pairs)
    ensures HeadersOf(Pieces(pairs)) == Parsed(MapOf(pairs))
  {
    if |pairs| > 0 {
      var prefix := pairs[..|pairs| - 1];
      assert Plain(prefix);
      HeadersOfPieces(prefix);
      PiecesPlain(pairs);
      assert Pieces(pairs)[..|pairs| - 1] == Pieces(prefix);
    }
  }

  /** Round trip: rendering a non-empty list of plain pairs as a `-headers`
      argument and parsing it gives back the pairs' map. (An empty argument
      is one empty piece and so invalid; `Stress` never parses it.) */
  lemma HeadersRoundTrip(pairs: seq<(string, string)>)
    requires |pairs| > 0 && Plain(pairs)
    ensures HeadersOf(Split(Render(pairs), ',')) == Parsed(MapOf(pairs))
  {
    PiecesPlain(pairs);
    SplitJoin(Pieces(pairs), ',');
    HeadersOfPieces(pairs);
  }
}

/**
 * The JSON reply helper shared by the authentication, activity and location
 * controllers: a status word derived from the HTTP code, the message, and the
 * extra data merged in.
 */
module HttpResponse {
  import opened Wrappers
  import opened Json

  datatype Response = Response(code: int, body: seq<(string, Json)>)

  /** `response($code, $message, $data)`: the reply the helper echoes before exiting. */
  function Respond(code: int, message: string, data: Option<seq<(string, Json)>>): (r: Response)
    ensures r.code == code
    ensures |r.body| >= 2 && Keys(r.body)[..2] == ["status", "message"]
    ensures data.None? || "status" !in Keys(data.value) ==>
              (Lookup(r.body, "status") == Some(JStr("success")) <==> code < 400) &&
              (Lookup(r.body, "status") == Some(JStr("error")) <==> code >= 400)
    ensures data.None? || "message" !in Keys(data.value) ==> Lookup(r.body, "message") == Some(JStr(message))
    ensures data.Some? ==> forall k :: k in Keys(data.value) ==> Lookup(r.body, k) == Lookup(data.value, k)
    ensures forall k :: k in Keys(r.body) <==> k == "status" || k == "message" || (data.Some? && k in Keys(data.value))
  {
    var base := [("status", JStr(if code < 400 then "success" else "error")), ("message", JStr(message))];
    BaseLookups(base, code, message);
    if data.None? then
      Response(code, base)
    else
      MergedBody(base, data.value);
      Response(code, Merge(base, data.value))
  }

  /** The two members the reply starts with, and what they hold. */
  lemma BaseLookups(base: seq<(string, Json)>, code: int, message: string)
    requires base == [("status", JStr(if code < 400 then "success" else "error")), ("message", JStr(message))]
    ensures Keys(base) == ["status", "message"]
    ensures Lookup(base, "status") == Some(JStr(if code < 400 then "success" else "error"))
    ensures Lookup(base, "message") == Some(JStr(message))
  {
  }

  /** array_merge onto the two leading members: they keep their places, the data wins on lookups. */
  lemma MergedBody(base: seq<(string, Json)>, data: seq<(string, Json)>)
    requires |base| == 2
    ensures var body := Merge(base, data);
            && |body| >= 2 && Keys(body)[..2] == Keys(base)
            && (forall k :: Lookup(body, k) == if k in Keys(data) then Lookup(data, k) else Lookup(base, k))
            && (forall k :: k in Keys(body) <==> k in Keys(base) || k in Keys(data))
  {
    var body := Merge(base, data);
    MergeKeepsKeys(base, data);
    forall k ensures Lookup(body, k) == if k in Keys(data) then Lookup(data, k) else Lookup(base, k) {
      MergeLookup(base, data, k);
    }
  }
}

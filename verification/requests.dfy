/** Request building in `ApiProxy.Invoke`: the operation's metadata and the
    caller's arguments become an abstract outbound request. RestSharp's
    `RestRequest` is replaced by a plain record that keeps exactly what the
    proxy puts into it. */
module Requests {
  import opened Wrappers
  import opened Metadata

  /** A call argument as the proxy inspects it: null, an object whose runtime
      type is exactly `string`, or any other object, known only by an
      opaque identity. */
  datatype ArgValue = Null | Str(s: string) | Other(obj: nat)

  /** A request-body parameter: the binding's name (possibly null) and the
      argument object itself. */
  datatype BodyEntry = BodyEntry(name: Option<string>, value: ArgValue)

  /** A file attachment: the binding's name (possibly null) and the
      argument as a file path. */
  datatype Attachment = Attachment(name: Option<string>, path: string)

  /** What walking the parameters adds to a request. */
  datatype Payload = Payload(body: seq<BodyEntry>, files: seq<Attachment>)

  /** The outbound request: verb and path from the method attribute, the
      operation-level headers as a dictionary, then body parameters and
      attachments in the order they were added. */
  datatype Request = Request(
    verb: HttpMethod,
    path: Option<string>,
    headers: map<string, string>,
    body: seq<BodyEntry>,
    files: seq<Attachment>)

  const NoPayload := Payload([], [])

  function Concat(x: Payload, y: Payload): Payload {
    Payload(x.body + y.body, x.files + y.files)
  }

  /** Number of entries a payload holds. */
  function Size(p: Payload): nat {
    |p.body| + |p.files|
  }

  /** The binding kinds the parameter switch has no case for. */
  predicate IgnoredKind(k: ParamType) {
    k == Header || k == Cookie || k == UrlParam || k == QueryParam
  }

  /** A parameter that contributes nothing to the request: it is unbound,
      its kind is ignored, or it is a file binding whose argument is not a
      non-null string. */
  predicate Inert(p: Param, a: ArgValue) {
    match p
    case None => true
    case Some(attr) => IgnoredKind(attr.kind) || (attr.kind == File && !a.Str?)
  }

  /** One step of the parameter loop: what the `switch` on the binding kind
      adds for one parameter and its argument. */
  function Classify(p: Param, a: ArgValue): (r: Payload)
    ensures Inert(p, a) <==> r == NoPayload
    ensures Size(r) <= 1
    ensures p.Some? && p.value.kind == BodyParam ==>
              r == Payload([BodyEntry(p.value.name, a)], [])
    ensures p.Some? && p.value.kind == File && a.Str? ==>
              r == Payload([], [Attachment(p.value.name, a.s)])
  {
    match p
    case None => NoPayload
    case Some(attr) =>
      match attr.kind
      case BodyParam => Payload([BodyEntry(attr.name, a)], [])
      case File => if a.Str? then Payload([], [Attachment(attr.name, a.s)]) else NoPayload
      case _ => NoPayload
  }

  /** The whole parameter loop, in declaration order: parameter `i` is
      classified together with argument `i`. */
  function Walk(ps: seq<Param>, args: seq<ArgValue>): (r: Payload)
    requires |ps| == |args|
    ensures Size(r) <= |ps|
    ensures |ps| == 0 ==> r == NoPayload
    decreases |ps|
  {
    if |ps| == 0 then NoPayload
    else Concat(Classify(ps[0], args[0]), Walk(ps[1..], args[1..]))
  }

  /** The dictionary built from the operation-level header attributes; with
      at most one such attribute it never meets a duplicate key. */
  function OperationHeaders(h: Option<HeaderAttr>): (r: map<string, string>)
    ensures h.None? ==> r == map[]
    ensures h.Some? ==> r.Keys == {h.value.name} && r[h.value.name] == h.value.value
  {
    match h
    case None => map[]
    case Some(hd) => map[hd.name := hd.value]
  }

  /** Builds the request for one call. An operation without a method
      attribute fails, as the source's dereference of the missing attribute
      does, before anything else happens. */
  function BuildRequest(op: Operation, args: seq<ArgValue>): (r: Result<Request, Error>)
    requires |args| == |op.params|
    ensures r.Success? <==> op.attr.Some?
    ensures r.Failure? ==> r.error == MissingMethodAttribute
    ensures r.Success? ==> r.value.verb == op.attr.value.verb
    ensures r.Success? ==> r.value.path == op.attr.value.path
    ensures r.Success? ==> r.value.headers == OperationHeaders(op.header)
    ensures r.Success? ==> Payload(r.value.body, r.value.files) == Walk(op.params, args)
    ensures r.Success? ==> |r.value.body| + |r.value.files| <= |args|
  {
    match op.attr
    case None => Failure(MissingMethodAttribute)
    case Some(attr) =>
      var p := Walk(op.params, args);
      Success(Request(attr.verb, attr.path, OperationHeaders(op.header), p.body, p.files))
  }

  /** The walk over a split parameter list is the walk over the first part
      followed by the walk over the second: contributions appear in
      parameter declaration order. */
  lemma {:induction false} WalkAppend(ps1: seq<Param>, as1: seq<ArgValue>, ps2: seq<Param>, as2: seq<ArgValue>)
    requires |ps1| == |as1| && |ps2| == |as2|
    ensures Walk(ps1 + ps2, as1 + as2) == Concat(Walk(ps1, as1), Walk(ps2, as2))
    decreases |ps1|
  {
    if |ps1| == 0 {
      assert ps1 + ps2 == ps2;
      assert as1 + as2 == as2;
    } else {
      assert (ps1 + ps2)[1..] == ps1[1..] + ps2;
      assert (as1 + as2)[1..] == as1[1..] + as2;
      WalkAppend(ps1[1..], as1[1..], ps2, as2);
    }
  }

  /** Adding one more parameter appends exactly that parameter's contribution. */
  lemma {:induction false} WalkSnoc(ps: seq<Param>, args: seq<ArgValue>, p: Param, a: ArgValue)
    requires |ps| == |args|
    ensures Walk(ps + [p], args + [a]) == Concat(Walk(ps, args), Classify(p, a))
  {
    WalkAppend(ps, args, [p], [a]);
    assert Walk([p], [a]) == Concat(Classify(p, a), Walk([], []));
  }

  /** A body entry is in the request iff some parameter is a `BodyParam`
      binding of that name whose argument is that value (null included). */
  lemma {:induction false} BodyMembership(ps: seq<Param>, args: seq<ArgValue>, e: BodyEntry)
    requires |ps| == |args|
    ensures e in Walk(ps, args).body <==>
              exists i :: 0 <= i < |ps| && ps[i] == Some(ParamAttr(BodyParam, e.name)) && args[i] == e.value
    decreases |ps|
  {
    if |ps| > 0 {
      BodyMembership(ps[1..], args[1..], e);
      var head := Classify(ps[0], args[0]);
      assert Walk(ps, args).body == head.body + Walk(ps[1..], args[1..]).body;
      if e in Walk(ps, args).body {
        if e in head.body {
          assert ps[0] == Some(ParamAttr(BodyParam, e.name)) && args[0] == e.value;
        } else {
          var j :| 0 <= j < |ps[1..]| && ps[1..][j] == Some(ParamAttr(BodyParam, e.name)) && args[1..][j] == e.value;
          assert ps[j + 1] == Some(ParamAttr(BodyParam, e.name)) && args[j + 1] == e.value;
        }
      }
      if exists i :: 0 <= i < |ps| && ps[i] == Some(ParamAttr(BodyParam, e.name)) && args[i] == e.value {
        var i :| 0 <= i < |ps| && ps[i] == Some(ParamAttr(BodyParam, e.name)) && args[i] == e.value;
        if i == 0 {
          assert e in head.body;
        } else {
          assert ps[1..][i - 1] == ps[i] && args[1..][i - 1] == args[i];
        }
      }
    }
  }

  /** An attachment is in the request iff some parameter is a `File`
      binding of that name whose argument is exactly that string. */
  lemma {:induction false} FileMembership(ps: seq<Param>, args: seq<ArgValue>, f: Attachment)
    requires |ps| == |args|
    ensures f in Walk(ps, args).files <==>
              exists i :: 0 <= i < |ps| && ps[i] == Some(ParamAttr(File, f.name)) && args[i] == Str(f.path)
    decreases |ps|
  {
    if |ps| > 0 {
      FileMembership(ps[1..], args[1..], f);
      var head := Classify(ps[0], args[0]);
      assert Walk(ps, args).files == head.files + Walk(ps[1..], args[1..]).files;
      if f in Walk(ps, args).files {
        if f in head.files {
          assert ps[0] == Some(ParamAttr(File, f.name)) && args[0] == Str(f.path);
        } else {
          var j :| 0 <= j < |ps[1..]| && ps[1..][j] == Some(ParamAttr(File, f.name)) && args[1..][j] == Str(f.path);
          assert ps[j + 1] == Some(ParamAttr(File, f.name)) && args[j + 1] == Str(f.path);
        }
      }
      if exists i :: 0 <= i < |ps| && ps[i] == Some(ParamAttr(File, f.name)) && args[i] == Str(f.path) {
        var i :| 0 <= i < |ps| && ps[i] == Some(ParamAttr(File, f.name)) && args[i] == Str(f.path);
        if i == 0 {
          assert f in head.files;
        } else {
          assert ps[1..][i - 1] == ps[i] && args[1..][i - 1] == args[i];
        }
      }
    }
  }

  /** The walk over `pre`, one parameter, then `post`, seen as three contributions. */
  lemma {:induction false} WalkSplit(pre: seq<Param>, apre: seq<ArgValue>, p: Param, a: ArgValue, post: seq<Param>, apost: seq<ArgValue>)
    requires |pre| == |apre| && |post| == |apost|
    ensures Walk(pre + [p] + post, apre + [a] + apost) == Concat(Walk(pre, apre), Concat(Classify(p, a), Walk(post, apost)))
  {
    WalkSnoc(pre, apre, p, a);
    WalkAppend(pre + [p], apre + [a], post, apost);
    var w0, m, w1 := Walk(pre, apre), Classify(p, a), Walk(post, apost);
    assert Walk(pre + [p] + post, apre + [a] + apost) == Concat(Concat(w0, m), w1);
    ConcatAssoc(w0, m, w1);
  }

  lemma ConcatAssoc(x: Payload, y: Payload, z: Payload)
    ensures Concat(Concat(x, y), z) == Concat(x, Concat(y, z))
  {
  }

  /** Parameter `i` can be deleted from the operation without changing the
      request exactly when it is inert; otherwise it accounts for exactly
      one entry. */
  lemma {:induction false} RemoveParam(ps: seq<Param>, args: seq<ArgValue>, i: nat)
    requires |ps| == |args| && i < |ps|
    ensures Inert(ps[i], args[i]) ==>
              Walk(ps[..i] + ps[i + 1..], args[..i] + args[i + 1..]) == Walk(ps, args)
    ensures !Inert(ps[i], args[i]) ==>
              Size(Walk(ps, args)) == Size(Walk(ps[..i] + ps[i + 1..], args[..i] + args[i + 1..])) + 1
  {
    var pre, post := ps[..i], ps[i + 1..];
    var apre, apost := args[..i], args[i + 1..];
    var p, a := ps[i], args[i];
    assert ps == pre + [p] + post;
    assert args == apre + [a] + apost;
    WalkSplit(pre, apre, p, a, post, apost);
    WalkAppend(pre, apre, post, apost);
    var w0, m, w1 := Walk(pre, apre), Classify(p, a), Walk(post, apost);
    assert Walk(ps, args) == Concat(w0, Concat(m, w1));
    assert Walk(pre + post, apre + apost) == Concat(w0, w1);
    if Inert(p, a) {
      assert Concat(m, w1) == w1;
    } else {
      assert Size(m) == 1;
    }
  }

  /** The argument passed for an inert parameter is never looked at beyond
      its shape: replacing it by another inert value leaves the request as it was. */
  lemma {:induction false} InertArgumentIrrelevant(ps: seq<Param>, args: seq<ArgValue>, i: nat, v: ArgValue)
    requires |ps| == |args| && i < |ps|
    requires Inert(ps[i], args[i]) && Inert(ps[i], v)
    ensures Walk(ps, args[i := v]) == Walk(ps, args)
  {
    RemoveParam(ps, args, i);
    RemoveParam(ps, args[i := v], i);
    assert args[i := v][..i] == args[..i];
    assert args[i := v][i + 1..] == args[i + 1..];
  }
}

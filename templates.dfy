/** The mail-template routes of `backend/src/routes/emailTemplate.ts`: read and
    save the template of a `type`, admins only. The separate `GET /invite`
    route is declared after `GET /:type`, which already answers that path the
    same way, so it adds nothing. */
module Templates {
  import opened Common
  import opened Schema
  import opened Store

  /** `GET /email-template/:type`: 403 for a non-admin, 404 when no template
      of that type exists, otherwise the first one. */
  function GetTemplate(templates: seq<Template>, caller: Caller, kind: string): (r: Reply<Template>)
    ensures !IsAdmin(caller) ==> r == Fail(Forbidden)
    ensures IsAdmin(caller) && TemplateOfKind(templates, kind).None? ==> r == Fail(NotFound)
    ensures r.Ok? ==> r.value in templates && r.value.kind == kind && Some(r.value) == TemplateOfKind(templates, kind)
    ensures r.Ok? <==> IsAdmin(caller) && exists i :: 0 <= i < |templates| && templates[i].kind == kind
  {
    if !IsAdmin(caller) then Fail(Forbidden)
    else match TemplateOfKind(templates, kind)
      case None => Fail(NotFound)
      case Some(t) => Ok(t)
  }

  /** The table after a save: the first template of the type gets the new
      subject and body in place, or a new row is appended when there is none. */
  function Saved(templates: seq<Template>, kind: string, subject: string, body: string, nextId: nat): (r: seq<Template>)
    ensures var k := TemplateIndex(templates, kind);
      (k >= 0 ==> |r| == |templates| && r[k] == templates[k].(subject := subject, body := body)
                  && forall i :: 0 <= i < |r| && i != k ==> r[i] == templates[i])
      && (k < 0 ==> r == templates + [Template(nextId, kind, subject, body)])
  {
    var k := TemplateIndex(templates, kind);
    if k >= 0 then templates[k := templates[k].(subject := subject, body := body)]
    else templates + [Template(nextId, kind, subject, body)]
  }

  /** `PUT /email-template/:type`. */
  method PutTemplate(db: Db, caller: Caller, kind: string, subject: string, body: string) returns (reply: Reply<Template>)
    requires db.Valid()
    modifies db`templates, db`nextId
    ensures db.Valid()
    ensures !IsAdmin(caller) ==> reply == Fail(Forbidden)
    ensures IsAdmin(caller) && (subject == "" || body == "") ==> reply == Fail(BadRequest)
    ensures reply.Fail? ==> db.templates == old(db.templates)
    ensures reply.Ok? <==> IsAdmin(caller) && subject != "" && body != ""
    ensures reply.Ok? ==> db.templates == Saved(old(db.templates), kind, subject, body, old(db.nextId))
    ensures reply.Ok? ==> reply.value.kind == kind && reply.value.subject == subject && reply.value.body == body
  {
    if !IsAdmin(caller) {
      return Fail(Forbidden);
    }
    if subject == "" || body == "" {
      return Fail(BadRequest);
    }
    var k := TemplateIndex(db.templates, kind);
    if k >= 0 {
      var t := db.templates[k].(subject := subject, body := body);
      db.UpdateTemplate(k, t);
      reply := Ok(t);
    } else {
      var t := db.CreateTemplate(kind, subject, body);
      reply := Ok(t);
    }
  }

  /** Reading a type right after saving it gives the saved subject and body. */
  lemma GetAfterPut(templates: seq<Template>, caller: Caller, kind: string, subject: string, body: string, nextId: nat)
    requires IsAdmin(caller)
    ensures var r := GetTemplate(Saved(templates, kind, subject, body, nextId), caller, kind);
      r.Ok? && r.value.kind == kind && r.value.subject == subject && r.value.body == body
  {
    var k := TemplateIndex(templates, kind);
    var after := Saved(templates, kind, subject, body, nextId);
    if k >= 0 {
      assert after[k].kind == kind;
      assert TemplateIndex(after, kind) == k by {
        forall j | 0 <= j < k ensures after[j].kind != kind {
          assert after[j] == templates[j];
        }
        TemplateIndexIsFirst(after, kind, k);
      }
    } else {
      assert after[|templates|].kind == kind;
      forall j | 0 <= j < |templates| ensures after[j].kind != kind {
        assert after[j] == templates[j];
      }
      TemplateIndexIsFirst(after, kind, |templates|);
    }
  }

  /** The first position of a kind is the one `TemplateIndex` finds. */
  lemma TemplateIndexIsFirst(templates: seq<Template>, kind: string, k: nat)
    requires k < |templates| && templates[k].kind == kind
    requires forall j :: 0 <= j < k ==> templates[j].kind != kind
    ensures TemplateIndex(templates, kind) == k
  {
  }

  /** The number of templates of a type. */
  function CountOfKind(templates: seq<Template>, kind: string): (n: nat)
    ensures n <= |templates|
    ensures n == 0 <==> forall i :: 0 <= i < |templates| ==> templates[i].kind != kind
  {
    if templates == [] then 0
    else (if templates[0].kind == kind then 1 else 0) + CountOfKind(templates[1..], kind)
  }

  /** A save never adds a second template of a type: it leaves the count of
      that type as it was when there is one, and makes it one otherwise. */
  lemma {:induction false} SaveKeepsOnePerKind(templates: seq<Template>, kind: string, subject: string, body: string, nextId: nat)
    ensures var n := CountOfKind(templates, kind);
      CountOfKind(Saved(templates, kind, subject, body, nextId), kind) == if n == 0 then 1 else n
  {
    var k := TemplateIndex(templates, kind);
    var after := Saved(templates, kind, subject, body, nextId);
    if k >= 0 {
      assert forall i :: 0 <= i < |templates| ==> (after[i].kind == kind <==> templates[i].kind == kind);
      SameKinds(templates, after, kind);
    } else {
      CountAppend(templates, [Template(nextId, kind, subject, body)], kind);
      assert CountOfKind([Template(nextId, kind, subject, body)], kind) == 1 by {
        assert [Template(nextId, kind, subject, body)][1..] == [];
      }
    }
  }

  /** Two tables whose rows agree on being of a type count it the same. */
  lemma {:induction false} SameKinds(a: seq<Template>, b: seq<Template>, kind: string)
    requires |a| == |b| && forall i :: 0 <= i < |a| ==> (a[i].kind == kind <==> b[i].kind == kind)
    ensures CountOfKind(a, kind) == CountOfKind(b, kind)
  {
    if a != [] {
      SameKinds(a[1..], b[1..], kind);
    }
  }

  lemma {:induction false} CountAppend(a: seq<Template>, b: seq<Template>, kind: string)
    ensures CountOfKind(a + b, kind) == CountOfKind(a, kind) + CountOfKind(b, kind)
  {
    if a == [] {
      assert a + b == b;
    } else {
      assert (a + b)[1..] == a[1..] + b;
      CountAppend(a[1..], b, kind);
    }
  }
}

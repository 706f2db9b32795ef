/** The message shape the formatter expects, as in the example above
    `formatUserEvent`:
      {"userEvent":"<TYPE>", "customerId":"[id1,id2,...]", "salesOrg:"<ORG>"}
    Note the missing quote after `salesOrg`: it is what puts the sales
    organisation at segment 10. `Render` builds such a message, so that the
    parser can be checked against its intended inverse.
 */
module MessageShape {
  import opened Wrappers
  import opened JsString
  import opened UserEventFormatter

  /** The quote-delimited segments of a rendered message. */
  function Fields(token: string, ids: seq<string>, salesOrg: string): (f: seq<string>)
    ensures |f| == 12
  {
    ["{", "userEvent", ":", token, ", ", "customerId", ":",
     "[" + Join(ids, IdSeparator) + "]", ", ", "salesOrg:", salesOrg, "}"]
  }

  function Render(token: string, ids: seq<string>, salesOrg: string): (m: string)
  {
    Join(Fields(token, ids, salesOrg), Quote)
  }

  /** What can be rendered and read back: no field holds a quote, there is
      at least one id, and no id holds a comma. */
  predicate Renderable(token: string, ids: seq<string>, salesOrg: string)
  {
    && Quote !in token
    && Quote !in salesOrg
    && |ids| >= 1
    && forall i :: 0 <= i < |ids| ==> IdSeparator !in ids[i] && Quote !in ids[i]
  }

  /** Splitting a rendered message on quotes gives back its twelve fields. */
  lemma SplitRender(token: string, ids: seq<string>, salesOrg: string)
    requires Renderable(token, ids, salesOrg)
    ensures Split(Render(token, ids, salesOrg), Quote) == Fields(token, ids, salesOrg)
  {
    var f := Fields(token, ids, salesOrg);
    var list := Join(ids, IdSeparator);
    JoinAvoidsCharacter(ids, IdSeparator, Quote);
    assert Quote !in "[" + list + "]";
    forall i | 0 <= i < |f|
      ensures Quote !in f[i]
    {
      assert f[i] in f;
    }
    SplitJoin(f, Quote);
  }

  /** The corrected parser reads a rendered message back exactly. */
  lemma CorrectedRoundTrip(token: string, ids: seq<string>, salesOrg: string)
    requires Renderable(token, ids, salesOrg)
    ensures FormatCorrected(Render(token, ids, salesOrg))
            == Success(UserEvent(EventTypeOf(Some(token)), ids, Some(salesOrg)))
  {
    var list := Join(ids, IdSeparator);
    SplitRender(token, ids, salesOrg);
    assert ("[" + list + "]")[1..|list| + 1] == list;
    SplitJoin(ids, IdSeparator);
  }

  /** What `Format` reads from any message whose segments are the fields of
      a rendered one. */
  lemma FormatFields(message: string, token: string, ids: seq<string>, salesOrg: string)
    requires Split(message, Quote) == Fields(token, ids, salesOrg)
    ensures Format(message)
            == Success(UserEvent(
                 EventTypeOf(Some(token)),
                 ParseCustomerIds("[" + Join(ids, IdSeparator) + "]", TrailingStrip),
                 Some(salesOrg)))
  {
    var parts := Split(message, Quote);
    assert |parts| == 12 && parts[3] == token && parts[10] == salesOrg;
    assert parts[7] == "[" + Join(ids, IdSeparator) + "]";
    assert Format(message) == Success(UserEvent(
      EventTypeOf(At(parts, 3)), ParseCustomerIds(parts[7], TrailingStrip), At(parts, 10)));
  }

  /** What `Format` reads from a rendered message: the id list still in its
      brackets goes through `ParseCustomerIds`. */
  lemma FormatRender(token: string, ids: seq<string>, salesOrg: string)
    requires Renderable(token, ids, salesOrg)
    ensures Format(Render(token, ids, salesOrg))
            == Success(UserEvent(
                 EventTypeOf(Some(token)),
                 ParseCustomerIds("[" + Join(ids, IdSeparator) + "]", TrailingStrip),
                 Some(salesOrg)))
  {
    SplitRender(token, ids, salesOrg);
    FormatFields(Render(token, ids, salesOrg), token, ids, salesOrg);
  }

  /** The bracketed id list as the parser reads it: the closing bracket and
      the character before it are cut. */
  lemma BracketedIdsAsWritten(ids: seq<string>)
    requires |Join(ids, IdSeparator)| >= 1
    ensures
      var list := Join(ids, IdSeparator);
      var parsed := ParseCustomerIds("[" + list + "]", TrailingStrip);
      && Join(parsed, IdSeparator) == list[..|list| - 1]
      && parsed != ids
  {
    var list := Join(ids, IdSeparator);
    var idList := "[" + list + "]";
    var parsed := ParseCustomerIds(idList, TrailingStrip);
    assert |idList| == |list| + 2;
    assert StripIdList(idList, TrailingStrip) == list[..|list| - 1] by {
      assert idList[1..|idList| - 2] == list[..|list| - 1];
    }
    assert |Join(parsed, IdSeparator)| == |list| - 1;
  }

  /** The parser as written reads a rendered message back with the last
      character of the id list lost. */
  lemma AsWrittenDropsLastCharacter(token: string, ids: seq<string>, salesOrg: string)
    requires Renderable(token, ids, salesOrg)
    requires |Join(ids, IdSeparator)| >= 1
    ensures
      var list := Join(ids, IdSeparator);
      var r := Format(Render(token, ids, salesOrg));
      && r.Success?
      && r.value.userEvent == EventTypeOf(Some(token))
      && r.value.salesOrg == Some(salesOrg)
      && Join(r.value.customerIds, IdSeparator) == list[..|list| - 1]
      && r.value.customerIds != ids
  {
    FormatRender(token, ids, salesOrg);
    BracketedIdsAsWritten(ids);
  }

  /** The parser as written turns an empty id list `[]` into the single id
      "[": `substring(1, 0)` swaps its arguments and keeps the bracket. */
  lemma AsWrittenEmptyList(token: string, salesOrg: string)
    requires Renderable(token, [""], salesOrg)
    ensures Format(Render(token, [""], salesOrg)).Success?
    ensures Format(Render(token, [""], salesOrg)).value.customerIds == ["["]
  {
    SplitRender(token, [""], salesOrg);
    SplitWithoutSeparator("[", IdSeparator);
  }

  /** The example message above `formatUserEvent`,
      {"userEvent":"LOGIN", "customerId":"[0700376380]", "salesOrg:"BCAR"}
      written with each quote as `[Quote]` and grouped to the right. */
  const DocExample: string :=
    "{" + [Quote] + ("userEvent" + [Quote] + (":" + [Quote] + ("LOGIN"
    + [Quote] + (", " + [Quote] + ("customerId" + [Quote] + (":" + [Quote]
    + ("[0700376380]" + [Quote] + (", " + [Quote] + ("salesOrg:" + [Quote]
    + ("BCAR" + [Quote] + "}"))))))))))

  /** The example's quote-delimited segments. */
  const DocFields: seq<string> :=
    ["{", "userEvent", ":", "LOGIN", ", ", "customerId", ":", "[0700376380]", ", ", "salesOrg:", "BCAR", "}"]

  /** Joining the segments back, one suffix at a time. */
  lemma DocFieldsJoin()
    ensures Join(DocFields, Quote) == DocExample
  {
    var q := [Quote];
    var suffix := "}";
    assert Join(DocFields[10..], Quote) == "BCAR" + q + suffix by {
      JoinSuffix(DocFields, 10, Quote);
    }
    suffix := "BCAR" + q + suffix;
    assert Join(DocFields[9..], Quote) == "salesOrg:" + q + suffix by {
      JoinSuffix(DocFields, 9, Quote);
    }
    suffix := "salesOrg:" + q + suffix;
    assert Join(DocFields[8..], Quote) == ", " + q + suffix by {
      JoinSuffix(DocFields, 8, Quote);
    }
    suffix := ", " + q + suffix;
    assert Join(DocFields[7..], Quote) == "[0700376380]" + q + suffix by {
      JoinSuffix(DocFields, 7, Quote);
    }
    suffix := "[0700376380]" + q + suffix;
    assert Join(DocFields[6..], Quote) == ":" + q + suffix by {
      JoinSuffix(DocFields, 6, Quote);
    }
    suffix := ":" + q + suffix;
    assert Join(DocFields[5..], Quote) == "customerId" + q + suffix by {
      JoinSuffix(DocFields, 5, Quote);
    }
    suffix := "customerId" + q + suffix;
    assert Join(DocFields[4..], Quote) == ", " + q + suffix by {
      JoinSuffix(DocFields, 4, Quote);
    }
    suffix := ", " + q + suffix;
    assert Join(DocFields[3..], Quote) == "LOGIN" + q + suffix by {
      JoinSuffix(DocFields, 3, Quote);
    }
    suffix := "LOGIN" + q + suffix;
    assert Join(DocFields[2..], Quote) == ":" + q + suffix by {
      JoinSuffix(DocFields, 2, Quote);
    }
    suffix := ":" + q + suffix;
    assert Join(DocFields[1..], Quote) == "userEvent" + q + suffix by {
      JoinSuffix(DocFields, 1, Quote);
    }
    suffix := "userEvent" + q + suffix;
    assert Join(DocFields[0..], Quote) == "{" + q + suffix by {
      JoinSuffix(DocFields, 0, Quote);
    }
    suffix := "{" + q + suffix;
    assert DocFields[0..] == DocFields;
  }

  lemma DocFieldsHaveNoQuote()
    ensures forall i :: 0 <= i < |DocFields| ==> Quote !in DocFields[i]
  {
    forall i | 0 <= i < |DocFields|
      ensures Quote !in DocFields[i]
    {
      assert DocFields[i] in DocFields;
    }
  }

  /** The example splits into twelve quote-delimited segments. */
  lemma DocExampleSegments()
    ensures Split(DocExample, Quote) == DocFields
  {
    DocFieldsJoin();
    DocFieldsHaveNoQuote();
    SplitJoin(DocFields, Quote);
  }

  /** The example's id list `[0700376380]` as the parser reads it. */
  lemma DocIdListAsWritten()
    ensures ParseCustomerIds("[0700376380]", TrailingStrip) == ["070037638"]
  {
    assert "[0700376380]"[1..10] == "070037638";
    SplitWithoutSeparator("070037638", IdSeparator);
  }

  lemma DocIdListCorrected()
    ensures ParseCustomerIds("[0700376380]", 1) == ["0700376380"]
  {
    assert "[0700376380]"[1..11] == "0700376380";
    SplitWithoutSeparator("0700376380", IdSeparator);
  }

  /** Any message with the example's segments, read as written. */
  lemma FormatDocSegments(message: string)
    requires Split(message, Quote) == DocFields
    ensures Format(message) == Success(UserEvent(Some(Login), ["070037638"], Some("BCAR")))
  {
    var parts := Split(message, Quote);
    assert |parts| == 12 && parts[3] == "LOGIN" && parts[7] == "[0700376380]" && parts[10] == "BCAR";
    assert Format(message) == Success(UserEvent(
      EventTypeOf(Some(parts[3])), ParseCustomerIds(parts[7], TrailingStrip), Some(parts[10])));
    DocIdListAsWritten();
  }

  /** Any message with the example's segments, read by the corrected parser. */
  lemma FormatCorrectedDocSegments(message: string)
    requires Split(message, Quote) == DocFields
    ensures FormatCorrected(message) == Success(UserEvent(Some(Login), ["0700376380"], Some("BCAR")))
  {
    var event := UserEvent(Some(Login), ["070037638"], Some("BCAR"));
    var idList := Split(message, Quote)[CustomerIdSegment];
    assert idList == "[0700376380]";
    FormatDocSegments(message);
    assert FormatCorrected(message)
           == Success(event.(customerIds := ParseCustomerIds(idList, 1)));
    DocIdListCorrected();
  }

  /** As written, the example's customer id loses its final `0`. */
  lemma DocExampleAsWritten()
    ensures Format(DocExample)
            == Success(UserEvent(Some(Login), ["070037638"], Some("BCAR")))
  {
    DocExampleSegments();
    FormatDocSegments(DocExample);
  }

  /** The corrected parser keeps the whole id. */
  lemma DocExampleCorrected()
    ensures FormatCorrected(DocExample)
            == Success(UserEvent(Some(Login), ["0700376380"], Some("BCAR")))
  {
    DocExampleSegments();
    FormatCorrectedDocSegments(DocExample);
  }
}

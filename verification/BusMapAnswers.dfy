/** What the Worker accepts from Bits for one Search entry, and what its submission says besides. */
module BusMapAnswers {
  import opened Wrappers
  import opened Text
  import opened Literals
  import opened JsonTree
  import opened SearchBusMapRun

  // ---------- answers ----------

  const ONE: Literal := LiteralParts(false, "1", "", "", "")

  /** Only the literal `1` is a successful status, whatever else has that value; no status is one too. */
  lemma SuccessIsLiterallyOne(envelope: map<string, Json>)
    ensures Successful(envelope) <==> "status" !in envelope || envelope["status"] == Num(ONE)
    ensures "status" in envelope && envelope["status"] == Num(LiteralParts(false, "1", "0", "", "")) ==>
              !Successful(envelope)
  {
    if "status" in envelope && envelope["status"].Num? {
      var l: Literal := envelope["status"].literal;
      if LiteralText(l) == "1" {
        assert |l.whole| >= 1;
        assert !l.negative && l.fraction == "" && l.mark == "";
      }
      assert LiteralText(LiteralParts(false, "1", "0", "", "")) == "1.0";
    }
  }

  /** An answer brings an entry: alone under `data`, there as the only one of a list, or as the answer itself. */
  ghost predicate Brings(reply: Reply, entry: map<string, Json>) {
    && reply.Body? && reply.value.Obj? && Successful(reply.value.members)
    && var envelope := reply.value.members;
       if "data" in envelope then entry != map[] && envelope["data"] in {Obj(entry), Arr([Obj(entry)])}
       else
         && entry == (map name | name in envelope && name != "status" :: envelope[name])
         && !(Blank(StringField(envelope, "tripCode")) && Blank(StringField(envelope, "tripStageCode")))
  }

  lemma DecodedIsBrought(reply: Reply, entry: map<string, Json>)
    ensures DecodeBusMap(reply) == Some(entry) <==> Brings(reply, entry)
  {
    if reply.Body? && reply.value.Obj? {
      var envelope := reply.value.members;
      assert envelope - {"status"} == map name | name in envelope && name != "status" :: envelope[name];
      if "data" in envelope && envelope["data"].Arr? && |envelope["data"].elems| == 1 {
        assert envelope["data"].elems == [envelope["data"].elems[0]];
      }
    }
  }

  // ---------- identifiers ----------

  /** The five texts an entry is identified by, without the blanks around them. */
  ghost function Identifying(entry: map<string, Json>): seq<string> {
    [TrimSpace(StringField(entry, "tripCode")), TrimSpace(StringField(entry, "tripStageCode")),
     TrimSpace(StringField(entry, "travelDate")), TrimSpace(NestedStringField(entry, "fromStation", "code")),
     TrimSpace(NestedStringField(entry, "toStation", "code"))]
  }

  /** One of these texts is given and is not the one expected. */
  ghost predicate SomeDiffers(actual: seq<string>, expected: seq<string>)
    requires |actual| == |expected|
  {
    exists i :: 0 <= i < |actual| && actual[i] != "" && actual[i] != expected[i]
  }

  /** The busmap names one of them otherwise than the Search entry. */
  ghost predicate Contradicts(busMap: map<string, Json>, entry: map<string, Json>) {
    SomeDiffers(Identifying(busMap), Identifying(entry))
  }

  ghost predicate Identified(entry: map<string, Json>) {
    "" !in Identifying(entry)
  }

  lemma FiveTexts(a: StageIdentifiers, b: StageIdentifiers)
    ensures var x := [a.tripCode, a.tripStageCode, a.travelDate, a.fromCode, a.toCode];
            var y := [b.tripCode, b.tripStageCode, b.travelDate, b.fromCode, b.toCode];
            && (Complete(a) <==> "" !in x)
            && (SomeDiffers(x, y)
                <==> !(&& SameUnlessBlank(a.tripCode, b.tripCode) && SameUnlessBlank(a.tripStageCode, b.tripStageCode)
                       && SameUnlessBlank(a.travelDate, b.travelDate) && SameUnlessBlank(a.fromCode, b.fromCode)
                       && SameUnlessBlank(a.toCode, b.toCode)))
  {
    var x := [a.tripCode, a.tripStageCode, a.travelDate, a.fromCode, a.toCode];
    var y := [b.tripCode, b.tripStageCode, b.travelDate, b.fromCode, b.toCode];
    assert x[0] == a.tripCode && x[1] == a.tripStageCode && x[2] == a.travelDate && x[3] == a.fromCode;
    assert x[4] == a.toCode && y[0] == b.tripCode && y[1] == b.tripStageCode && y[2] == b.travelDate;
    assert y[3] == b.fromCode && y[4] == b.toCode;
  }

  lemma IdentifyingFields(entry: map<string, Json>)
    ensures var id := StageIdentifiersOf(entry);
            Identifying(entry) == [id.tripCode, id.tripStageCode, id.travelDate, id.fromCode, id.toCode]
  {
  }

  lemma IdentifiersByName(busMap: map<string, Json>, entry: map<string, Json>)
    ensures Complete(StageIdentifiersOf(entry)) <==> Identified(entry)
    ensures IdentityMatches(busMap, StageIdentifiersOf(entry)) <==> !Contradicts(busMap, entry)
  {
    IdentifyingFields(busMap);
    IdentifyingFields(entry);
    FiveTexts(StageIdentifiersOf(busMap), StageIdentifiersOf(entry));
    FiveTexts(StageIdentifiersOf(entry), StageIdentifiersOf(entry));
  }

  /** What a usable answer brings is what it decodes into. */
  lemma SomeFitIsDecoded(reply: Reply, entry: map<string, Json>)
    ensures (exists busMap :: Brings(reply, busMap) && !Contradicts(busMap, entry))
            <==> && DecodeBusMap(reply).Some?
                 && IdentityMatches(DecodeBusMap(reply).value, StageIdentifiersOf(entry))
  {
    forall busMap ensures Brings(reply, busMap) <==> DecodeBusMap(reply) == Some(busMap) {
      DecodedIsBrought(reply, busMap);
    }
    if DecodeBusMap(reply).Some? {
      IdentifiersByName(DecodeBusMap(reply).value, entry);
      assert Brings(reply, DecodeBusMap(reply).value);
    }
  }

  /**
   * A Search entry is combined exactly when it has all five identifiers, its quota call passes, and Bits
   * brings a busmap that contradicts none of them.
   */
  lemma EntryIsCombinedExactly(w: Service, entry: map<string, Json>, k: nat)
    ensures Combinable(w, entry, k)
            <==> && Identified(entry) && w.quota(k + 1)
                 && exists busMap :: Brings(w.reply(k + 1), busMap) && !Contradicts(busMap, entry)
  {
    SomeFitIsDecoded(w.reply(k + 1), entry);
    IdentifiersByName(map[], entry);
  }

  /** It is then combined with just that busmap. */
  lemma CombinedWithWhatIsBrought(w: Service, entry: map<string, Json>, k: nat, busMap: map<string, Json>)
    requires Combinable(w, entry, k) && Brings(w.reply(k + 1), busMap)
    ensures CombinedEntry(w, entry, k) == Obj(Combine(entry, busMap))
  {
    DecodedIsBrought(w.reply(k + 1), busMap);
  }

  // ---------- the rest of a submission ----------

  lemma {:induction false} TextsReadBack(members: map<string, Json>, fields: seq<(string, string)>, i: nat)
    requires i < |fields| && fields[i].0 !in members
    requires forall j, k :: 0 <= j < k < |fields| ==> fields[j].0 != fields[k].0
    ensures StringField(WithTexts(members, fields), fields[i].0) == fields[i].1
    decreases |fields|
  {
    var (name, text) := fields[0];
    var next := if text == "" then members else members[name := Str(text)];
    if i == 0 {
      NamesStayAway(next, fields[1..], name);
    } else {
      TextsReadBack(next, fields[1..], i - 1);
    }
  }

  lemma {:induction false} NamesStayAway(members: map<string, Json>, fields: seq<(string, string)>, name: string)
    requires forall f :: f in fields ==> f.0 != name
    ensures StringField(WithTexts(members, fields), name) == StringField(members, name)
    decreases |fields|
  {
    if fields != [] {
      var (first, text) := fields[0];
      assert fields[0] in fields;
      NamesStayAway(if text == "" then members else members[first := Str(text)], fields[1..], name);
    }
  }

  /** A submission names the job it answers: its reference, route and trip read back as in the message. */
  lemma SubmissionNamesItsJob(m: Message, response: Json)
    ensures var root := SubmittedRequest(m, response).members;
            && StringField(root, "refid") == m.reference
            && StringField(root, "fromCode") == m.fromCode && StringField(root, "toCode") == m.toCode
            && StringField(root, "tripDate") == m.tripDate && StringField(root, "tripCode") == m.tripCode
            && StringField(root, "fromStationCode") == m.fromStation
            && StringField(root, "toStationCode") == m.toStation
            && StringField(root, "travelDate") == m.travelDate
  {
    var fields := OptionalFields(m);
    var required := map["actionType" := Str(m.action), "operatorCode" := Str(m.operator), "orbitResponse" := response];
    forall i | 0 <= i < 8 ensures StringField(WithTexts(required, fields), fields[i].0) == fields[i].1 {
      TextsReadBack(required, fields, i);
    }
    assert fields[0].0 == "refid" && fields[1].0 == "fromCode" && fields[2].0 == "toCode" && fields[3].0 == "tripDate";
    assert fields[4].0 == "tripCode" && fields[5].0 == "fromStationCode" && fields[6].0 == "toStationCode";
    assert fields[7].0 == "travelDate";
  }
}

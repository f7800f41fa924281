/** What a scan reports and what it leaves behind, stated without its loops. */
module ScanResults {
  import opened Prelude
  import opened Strings
  import opened Cpe
  import opened CpeMatcher
  import opened MatchMeaning
  import opened FindingRepository
  import opened ScanEngine

  ghost predicate SomeCriterion(host: CPE, cve: CachedCVE) {
    exists m :: m in cve.cpeMatches && MatchesCPE(host, m)
  }

  /** Host i is the first that satisfies some criterion of the CVE. */
  ghost predicate FirstHost(cpes: seq<CPE>, cve: CachedCVE, i: nat) {
    i < |cpes| && SomeCriterion(cpes[i], cve) && forall j | 0 <= j < i :: !SomeCriterion(cpes[j], cve)
  }

  /** Criterion i is the first that the host satisfies. */
  ghost predicate FirstMatch(host: CPE, matches: seq<CpeMatch>, i: nat) {
    i < |matches| && MatchesCPE(host, matches[i]) && forall j | 0 <= j < i :: !MatchesCPE(host, matches[j])
  }

  function NameOf(host: CPE, m: CpeMatch): string {
    if m.criteria == "" then Print(host) else m.criteria
  }

  lemma {:induction false} CriterionIs(host: CPE, matches: seq<CpeMatch>, i: nat)
    requires FirstMatch(host, matches, i)
    ensures FirstCriterion(host, matches) == Some(NameOf(host, matches[i]))
  {
    hide MatchesCPE, Print;
    if i > 0 {
      assert !MatchesCPE(host, matches[0]);
      assert FirstMatch(host, matches[1..], i - 1) by {
        assert forall j | 0 <= j < i - 1 :: matches[1..][j] == matches[j + 1];
      }
      CriterionIs(host, matches[1..], i - 1);
    }
  }

  lemma {:induction false} HitIs(cpes: seq<CPE>, cve: CachedCVE)
    ensures FirstHit(cpes, cve).None? ==> forall host | host in cpes :: !SomeCriterion(host, cve)
    ensures FirstHit(cpes, cve).Some? ==>
              exists i: nat :: FirstHost(cpes, cve, i) && FirstHit(cpes, cve).value.host == cpes[i]
                               && FirstCriterion(cpes[i], cve.cpeMatches) == Some(FirstHit(cpes, cve).value.criterion)
  {
    hide MatchesCPE;
    if cpes != [] {
      var before, last := cpes[..|cpes| - 1], |cpes| - 1;
      HitIs(before, cve);
      if FirstHit(before, cve).Some? {
        var i: nat :| FirstHost(before, cve, i) && FirstHit(before, cve).value.host == before[i]
                      && FirstCriterion(before[i], cve.cpeMatches) == Some(FirstHit(before, cve).value.criterion);
        assert FirstHost(cpes, cve, i) && cpes[i] == before[i];
      } else {
        assert forall j | 0 <= j < last :: cpes[j] in before;
        if FirstHit(cpes, cve).Some? {
          assert FirstHost(cpes, cve, last);
        } else {
          assert forall host | host in cpes :: host in before || host == cpes[last];
        }
      }
    }
  }

  /** A scan reports exactly the CVEs, of those with an ID, that some host CPE matches. */
  lemma ReportedIff(cache: Cache, cpes: seq<CPE>, id: string)
    ensures id in HitsOf(cache, cpes) <==>
            id in cache && id != "" && exists host :: host in cpes && SomeCriterion(host, cache[id])
  {
    hide SomeCriterion, FirstHit;
    if id in cache {
      HitIs(cpes, cache[id]);
      if FirstHit(cpes, cache[id]).Some? {
        var i: nat :| FirstHost(cpes, cache[id], i);
        assert cpes[i] in cpes;
      }
    }
  }

  /**
    In terms of the criteria's own texts and bounds: a CVE is reported exactly when some host CPE meets one of
    its criteria in part, vendor, product and version. So one whose every criterion fails any of these for
    every host CPE is not.
  */
  lemma ReportedMeans(cache: Cache, cpes: seq<CPE>, id: string)
    ensures id in HitsOf(cache, cpes) <==>
            id in cache && id != "" && exists host, m :: host in cpes && m in cache[id].cpeMatches && Meets(host, m)
  {
    hide Meets, MatchesCPE, HitsOf;
    ReportedIff(cache, cpes, id);
    forall host, m ensures MatchesCPE(host, m) <==> Meets(host, m) {
      MatchesIff(host, m);
    }
    if id in HitsOf(cache, cpes) {
      var host :| host in cpes && SomeCriterion(host, cache[id]);
      var m :| m in cache[id].cpeMatches && MatchesCPE(host, m);
    }
    if id in cache && exists host, m :: host in cpes && m in cache[id].cpeMatches && Meets(host, m) {
      var host, m :| host in cpes && m in cache[id].cpeMatches && Meets(host, m);
      assert SomeCriterion(host, cache[id]);
    }
  }

  /** A CVE whose criteria name other vendors only, none of them "*", is not reported. */
  lemma OtherVendorsUnreported(cache: Cache, cpes: seq<CPE>, id: string)
    requires id in cache
    requires forall host, m | host in cpes && m in cache[id].cpeMatches ::
      var parts := Split(m.criteria, ':');
      IsName(parts) && parts[3] != "*" && host.vendor != "*" && !SameButForCase(parts[3], host.vendor)
      && !Occurs(Lower(parts[3]), Lower(host.vendor)) && !Occurs(Lower(host.vendor), Lower(parts[3]))
    ensures id !in HitsOf(cache, cpes)
  {
    hide Split, Occurs, Lower, SameButForCase, HitsOf;
    ReportedMeans(cache, cpes, id);
  }

  /** The component reported is the first host CPE that matches, and the criterion the first that it satisfies. */
  lemma ReportedAs(cache: Cache, cpes: seq<CPE>, id: string, i: nat, j: nat)
    requires id in cache && id != "" && FirstHost(cpes, cache[id], i) && FirstMatch(cpes[i], cache[id].cpeMatches, j)
    ensures id in HitsOf(cache, cpes) && HitsOf(cache, cpes)[id] == Hit(cpes[i], NameOf(cpes[i], cache[id].cpeMatches[j]))
  {
    hide SomeCriterion, FirstHit, MatchesCPE;
    HitIs(cpes, cache[id]);
    assert cpes[i] in cpes;
    CriterionIs(cpes[i], cache[id].cpeMatches, j);
    var k: nat :| FirstHost(cpes, cache[id], k) && FirstHit(cpes, cache[id]).value.host == cpes[k]
                  && FirstCriterion(cpes[k], cache[id].cpeMatches) == Some(FirstHit(cpes, cache[id]).value.criterion);
    assert k == i;
  }

  /** A finding that the scan enters, spelled out: whose, of what, when, and the advice that goes with it. */
  lemma NewFindingMeans(w: World, hits: map<string, Hit>, id: string)
    requires hits.Keys <= w.cache.Keys && id in hits && w.cache[id].cveID == id && CanonicalID(id) == id
    requires w.ctx.tenantID + ":" + w.ctx.endpointID + ":" + id !in w.before
    ensures var key := w.ctx.tenantID + ":" + w.ctx.endpointID + ":" + id;
            && key in Scanned(w, hits)
            && var f := Scanned(w, hits)[key];
               && f.id == w.ctx.newID(id) && f.tenantID == w.ctx.tenantID && f.endpointID == w.ctx.endpointID
               && f.hostname == w.ctx.hostname && f.cveID == id && f.title == w.cache[id].title
               && f.posture.cvssScore == w.cache[id].cvssScore
               && f.posture.ransomwareUse == (if id in w.kevs then w.kevs[id].ransomwareUse else "")
               && f.posture.remediation == (if id in w.kevs then "CRITICAL CISA KEV ACTION REQUIRED: " else "") + "Upgrade "
                                           + hits[id].host.rawApp + " to the latest patched version or install vendor security update."
               && f.status == "OPEN" && f.firstSeen == w.ctx.now && f.lastSeen == w.ctx.now
  {
    CanonicalIsUpper(id);
    KeyIs(w.ctx, id);
    assert Remediation(hits[id].host, false) == "" + Remediation(hits[id].host, false);
    hide Key, Scanned, HitAt, CanonicalID;
    ScannedAt(w, hits, Key(w.ctx, id));
    HitAtItsKey(w.ctx, hits, id);
    RemediationIs(hits[id].host, id in w.kevs);
  }

  lemma RemediationIs(host: CPE, isKEV: bool)
    ensures Remediation(host, isKEV)
         == (if isKEV then "CRITICAL CISA KEV ACTION REQUIRED: " else "") + "Upgrade "
            + host.rawApp + " to the latest patched version or install vendor security update."
  {
    assert "" + "Upgrade " == "Upgrade ";
    var tail := host.rawApp + " to the latest patched version or install vendor security update.";
    assert "CRITICAL CISA KEV ACTION REQUIRED: " + "Upgrade " + host.rawApp + " to the latest patched version or install vendor security update."
        == "CRITICAL CISA KEV ACTION REQUIRED: " + ("Upgrade " + host.rawApp + " to the latest patched version or install vendor security update.");
  }

  /** What a scan records of a hit. A known exploited vulnerability is critical whatever its own severity. */
  lemma RecordedAs(w: World, hits: map<string, Hit>, id: string)
    requires hits.Keys <= w.cache.Keys && id in hits
    ensures Key(w.ctx, id) in Scanned(w, hits)
    ensures Scanned(w, hits)[Key(w.ctx, id)].posture.isKEV <==> id in w.kevs
    ensures Scanned(w, hits)[Key(w.ctx, id)].posture.severity == if id in w.kevs then "CRITICAL" else w.cache[id].severity
    ensures Scanned(w, hits)[Key(w.ctx, id)].posture.affectedComponent == hits[id].host.rawApp
    ensures Scanned(w, hits)[Key(w.ctx, id)].posture.cpeMatched == hits[id].criterion
    ensures Scanned(w, hits)[Key(w.ctx, id)].status == "OPEN" && Scanned(w, hits)[Key(w.ctx, id)].lastSeen == w.ctx.now
  {
    hide Key, Scanned, HitAt, Remediation, CanonicalID;
    ScannedAt(w, hits, Key(w.ctx, id));
    HitAtItsKey(w.ctx, hits, id);
  }

  lemma HitAtItsKey(ctx: Context, hits: map<string, Hit>, id: string)
    requires id in hits
    ensures HitAt(ctx, hits, Key(ctx, id)) == Some(id)
  {
  }

  // ----- Scanning again ---------------------------------------------------------------------------

  /** A scan drops no finding, and none changes its ID, its first sighting, or whose it is. */
  lemma ScanKeepsIdentities(w: World, hits: map<string, Hit>, key: string)
    requires hits.Keys <= w.cache.Keys && key in w.before
    ensures key in Scanned(w, hits)
    ensures Scanned(w, hits)[key].(posture := w.before[key].posture, status := w.before[key].status, lastSeen := w.before[key].lastSeen)
         == w.before[key]
  {
    hide Key, Scanned;
    ScannedAt(w, hits, key);
  }

  /**
    Scanning the same snapshot again creates no finding and changes none, but for when it was last seen:
    the ID and first sighting stay, and posture and status come out the same.
  */
  lemma RescanCreatesNothing(w: World, again: World, hits: map<string, Hit>, key: string)
    requires hits.Keys <= w.cache.Keys
    requires again.before == Scanned(w, hits) && again.cache == w.cache && again.kevs == w.kevs
    requires again.ctx.tenantID == w.ctx.tenantID && again.ctx.endpointID == w.ctx.endpointID
    ensures Scanned(again, hits).Keys == again.before.Keys
    ensures key in again.before ==> key in Scanned(again, hits) && Scanned(again, hits)[key] == SeenAgain(w, again, hits, key)
  {
    hide Key, Scanned, Remediation, CanonicalID;
    forall k ensures k in Scanned(again, hits) <==> k in again.before {
      ScannedAt(w, hits, k);
      ScannedAt(again, hits, k);
      SameKeys(w.ctx, again.ctx, hits, k);
    }
    ScannedAt(w, hits, key);
    ScannedAt(again, hits, key);
    SameKeys(w.ctx, again.ctx, hits, key);
  }

  /** The record of a rescan: the one before it, last seen now if its CVE is among those hit. */
  function SeenAgain(w: World, again: World, hits: map<string, Hit>, key: string): Record
    requires key in again.before
  {
    if HitAt(w.ctx, hits, key).Some? then again.before[key].(lastSeen := again.ctx.now) else again.before[key]
  }

  lemma SameKeys(ctx: Context, other: Context, hits: map<string, Hit>, key: string)
    requires ctx.tenantID == other.tenantID && ctx.endpointID == other.endpointID
    ensures HitAt(ctx, hits, key) == HitAt(other, hits, key)
    ensures forall id :: Key(ctx, id) == Key(other, id)
  {
  }

  // ----- Keys -------------------------------------------------------------------------------------

  /** Tenant and endpoint IDs without colons keep findings of different hosts apart. */
  lemma KeysSeparateHosts(t1: string, e1: string, c1: string, t2: string, e2: string, c2: string)
    requires ':' !in t1 && ':' !in e1 && ':' !in t2 && ':' !in e2
    requires DedupKey(t1, e1, c1) == DedupKey(t2, e2, c2)
    ensures t1 == t2 && e1 == e2 && c1 == c2
  {
    JoinedNamesDiffer(t1, e1, c1, t2, e2, c2);
  }

  /** What the keys of a host's findings start with. */
  function HostPrefix(tenantID: string, endpointID: string): string {
    tenantID + ":" + endpointID + ":"
  }

  predicate PrefixesMeet(t1: string, e1: string, t2: string, e2: string) {
    HostPrefix(t1, e1) <= HostPrefix(t2, e2) || HostPrefix(t2, e2) <= HostPrefix(t1, e1)
  }

  /** Two hosts can come to share a key exactly when the prefix of one is a prefix of the other's. */
  lemma HostsMeetIff(t1: string, e1: string, t2: string, e2: string)
    ensures (exists c1, c2 :: DedupKey(t1, e1, c1) == DedupKey(t2, e2, c2)) <==> PrefixesMeet(t1, e1, t2, e2)
  {
    PrefixesMeetIff(HostPrefix(t1, e1), HostPrefix(t2, e2));
    if PrefixesMeet(t1, e1, t2, e2) {
      var c1: string, c2: string :| HostPrefix(t1, e1) + c1 == HostPrefix(t2, e2) + c2;
      assert DedupKey(t1, e1, c1) == DedupKey(t2, e2, c2);
    } else {
      forall c1, c2 ensures DedupKey(t1, e1, c1) != DedupKey(t2, e2, c2) {
        assert DedupKey(t1, e1, c1) == HostPrefix(t1, e1) + c1 && DedupKey(t2, e2, c2) == HostPrefix(t2, e2) + c2;
      }
    }
  }

  /** And for the same CVE exactly when tenant, colon and endpoint read the same. */
  lemma SameKeyIff(t1: string, e1: string, t2: string, e2: string, cveID: string)
    ensures DedupKey(t1, e1, cveID) == DedupKey(t2, e2, cveID) <==> t1 + ":" + e1 == t2 + ":" + e2
  {
    var h1, h2, tail := t1 + ":" + e1, t2 + ":" + e2, ":" + cveID;
    assert DedupKey(t1, e1, cveID) == h1 + tail && DedupKey(t2, e2, cveID) == h2 + tail;
    if h1 + tail == h2 + tail {
      assert |h1| == |h2| && h1 == (h1 + tail)[..|h1|] == h2;
    }
  }

  lemma SeparatedPrefixes(t1: string, e1: string, t2: string, e2: string)
    requires ':' !in t1 && ':' !in e1 && ':' !in t2 && ':' !in e2 && (t1 != t2 || e1 != e2)
    ensures !PrefixesMeet(t1, e1, t2, e2)
  {
    HostsMeetIff(t1, e1, t2, e2);
    if PrefixesMeet(t1, e1, t2, e2) {
      var c1, c2 :| DedupKey(t1, e1, c1) == DedupKey(t2, e2, c2);
      KeysSeparateHosts(t1, e1, c1, t2, e2, c2);
    }
  }

  /** With colons in the IDs, two hosts can share a key, and so a finding. */
  lemma ColonsMixHosts(cveID: string)
    ensures DedupKey("a:b", "c", cveID) == DedupKey("a", "b:c", cveID)
  {
    assert "a:b" + ":" + "c" == "a" + ":" + "b:c";
  }

  /** A scan leaves the findings of every host whose prefix does not meet its own alone. */
  lemma OtherHostsUntouched(w: World, hits: map<string, Hit>, key: string)
    requires hits.Keys <= w.cache.Keys && key in w.before && KeyOf(w.before[key]) == key
    requires !PrefixesMeet(w.ctx.tenantID, w.ctx.endpointID, w.before[key].tenantID, w.before[key].endpointID)
    ensures key in Scanned(w, hits) && Scanned(w, hits)[key] == w.before[key]
  {
    hide Scanned, Key, DedupKey, PrefixesMeet;
    ScannedAt(w, hits, key);
    var f := w.before[key];
    HostsMeetIff(w.ctx.tenantID, w.ctx.endpointID, f.tenantID, f.endpointID);
    if HitAt(w.ctx, hits, key).Some? {
      KeyIs(w.ctx, HitAt(w.ctx, hits, key).value);
    }
  }

  lemma KeyIs(ctx: Context, id: string)
    ensures Key(ctx, id) == DedupKey(ctx.tenantID, ctx.endpointID, id)
  {
  }
}

/**
 * The DRM plugin instance `MockDrmPlugin` (MockDrmCryptoPlugin.cpp:70-336):
 * a list of open session ids and two property maps through which a test
 * drives the plugin and reads back what the framework passed to it.
 */
module MockDrm {
  import opened DrmTypes
  import opened ByteCompare
  import opened Format

  /** Bytes of randomness appended by `openSession` (`kSessionIdSize`). */
  const SessionIdSize: nat := 8

  /** `findSession`'s answer when no stored id matches. */
  const NotFound: int := -1

  // Property names of the test protocol.
  const MockInitData: string := "mock-initdata"
  const MockMimeType: string := "mock-mimetype"
  const MockLicenseType: string := "mock-licensetype"
  const MockOptParams: string := "mock-optparams"
  const MockRequest: string := "mock-request"
  const MockDefaultUrl: string := "mock-defaultUrl"
  const MockResponse: string := "mock-response"

  // License status entries reported by `queryLicenseStatus`.
  const PurchaseDuration: string := "purchaseDuration"
  const LicenseDuration: string := "licenseDuration"

  /** The two secure stops `getSecureStops` hands out, in this order. */
  const SecureStop1: seq<byte> := [0x81, 0x82, 0x83, 0x84, 0x85, 0x86, 0x87, 0x88, 0x89]
  const SecureStop2: seq<byte> := [0x91, 0x92, 0x93, 0x94, 0x95, 0x96, 0x97, 0x98, 0x99]

  /**
   * `findSession`'s answer as a function of the session list: the index of
   * the first stored id whose leading |id| bytes are id, or NotFound.
   */
  function FirstMatch(sessions: seq<seq<byte>>, id: seq<byte>): (r: int)
    ensures NotFound <= r < |sessions|
    ensures r != NotFound ==> id <= sessions[r]
    ensures r != NotFound ==> forall j :: 0 <= j < r ==> !(id <= sessions[j])
    ensures r == NotFound <==> forall j :: 0 <= j < |sessions| ==> !(id <= sessions[j])
    decreases |sessions|
  {
    if sessions == [] then NotFound
    else if id <= sessions[0] then 0
    else
      var r := FirstMatch(sessions[1..], id);
      if r == NotFound then NotFound else r + 1
  }

  /** The list without its i-th entry (`removeAt`). */
  function RemoveAt(sessions: seq<seq<byte>>, i: nat): (r: seq<seq<byte>>)
    requires i < |sessions|
    ensures |r| == |sessions| - 1
    ensures forall j :: 0 <= j < i ==> r[j] == sessions[j]
    ensures forall j :: i <= j < |r| ==> r[j] == sessions[j + 1]
  {
    sessions[..i] + sessions[i + 1..]
  }

  /**
   * `findSession` compares |id| bytes of every stored id it visits; the
   * model requires that this never reads past a stored id.
   */
  predicate InBounds(sessions: seq<seq<byte>>, id: seq<byte>)
  {
    forall j :: 0 <= j < |sessions| ==> |id| <= |sessions[j]|
  }

  /** An empty id matches the first open session, if there is one. */
  lemma EmptyIdMatchesFirst(sessions: seq<seq<byte>>)
    requires sessions != []
    ensures FirstMatch(sessions, []) == 0
  {
  }

  /** A session just appended is found, at its own index unless an earlier id shares its prefix. */
  lemma OpenedSessionFound(sessions: seq<seq<byte>>, id: seq<byte>)
    ensures FirstMatch(sessions + [id], id) != NotFound
    ensures FirstMatch(sessions, id) == NotFound ==> FirstMatch(sessions + [id], id) == |sessions|
  {
    var all := sessions + [id];
    assert id <= all[|sessions|];
    if FirstMatch(sessions, id) == NotFound {
      assert forall j :: 0 <= j < |sessions| ==> all[j] == sessions[j];
    }
  }

  /**
   * After the first match of id is removed, id is found again exactly when
   * some other entry also begins with id.
   */
  lemma SecondCloseFinds(sessions: seq<seq<byte>>, id: seq<byte>)
    requires FirstMatch(sessions, id) != NotFound
    ensures var i := FirstMatch(sessions, id);
      FirstMatch(RemoveAt(sessions, i), id) != NotFound <==>
      exists j :: 0 <= j < |sessions| && j != i && id <= sessions[j]
  {
    var i := FirstMatch(sessions, id);
    var rest := RemoveAt(sessions, i);
    var k := FirstMatch(rest, id);
    if k != NotFound {
      var j := if k < i then k else k + 1;
      assert rest[k] == sessions[j];
      assert j != i && id <= sessions[j];
    } else {
      OnlyMatchRemoved(sessions, id, i);
    }
  }

  /** When the list without entry i has no match, i was the only entry beginning with id. */
  lemma OnlyMatchRemoved(sessions: seq<seq<byte>>, id: seq<byte>, i: nat)
    requires i < |sessions|
    requires FirstMatch(RemoveAt(sessions, i), id) == NotFound
    ensures forall j :: 0 <= j < |sessions| && j != i ==> !(id <= sessions[j])
  {
    var rest := RemoveAt(sessions, i);
    forall j | 0 <= j < |sessions| && j != i
      ensures !(id <= sessions[j])
    {
      var k := if j < i then j else j - 1;
      assert rest[k] == sessions[j];
    }
  }

  /**
   * Opening a session whose id no open session begins with, then closing
   * it, restores the list, after which a second close of it fails.
   */
  lemma OpenCloseRoundTrip(sessions: seq<seq<byte>>, id: seq<byte>)
    requires FirstMatch(sessions, id) == NotFound
    ensures FirstMatch(sessions + [id], id) == |sessions|
    ensures RemoveAt(sessions + [id], |sessions|) == sessions
    ensures FirstMatch(RemoveAt(sessions + [id], |sessions|), id) == NotFound
  {
    OpenedSessionFound(sessions, id);
    RemoveAppended(sessions, id);
  }

  /** Removing the entry just appended gives back the list before it. */
  lemma RemoveAppended(sessions: seq<seq<byte>>, id: seq<byte>)
    ensures RemoveAt(sessions + [id], |sessions|) == sessions
  {
    var all := sessions + [id];
    assert all[..|sessions|] == sessions && all[|sessions| + 1..] == [];
    assert sessions + [] == sessions;
  }

  /** One plugin instance and the state its methods update in place. */
  class MockDrmPlugin {
    var sessions: seq<seq<byte>>
    var strProps: map<string, string>
    var byteProps: map<string, seq<byte>>

    /** Every open session id holds at least the bytes `openSession` appended. */
    ghost predicate Valid()
      reads this`sessions
    {
      forall j :: 0 <= j < |sessions| ==> |sessions[j]| >= SessionIdSize
    }

    /** An id no longer than a generated one never makes `findSession` read out of bounds. */
    lemma ShortIdInBounds(id: seq<byte>)
      requires Valid() && |id| <= SessionIdSize
      ensures InBounds(sessions, id)
    {
    }

    constructor ()
      ensures Valid()
      ensures sessions == [] && strProps == map[] && byteProps == map[]
    {
      sessions := [];
      strProps := map[];
      byteProps := map[];
    }

    /** `findSession` (:327-336): linear scan, first stored id beginning with sessionId. */
    method FindSession(sessionId: seq<byte>) returns (index: int)
      requires InBounds(sessions, sessionId)
      ensures index == FirstMatch(sessions, sessionId)
    {
      var i := 0;
      while i < |sessions|
        invariant 0 <= i <= |sessions|
        invariant forall j :: 0 <= j < i ==> !(sessionId <= sessions[j])
      {
        if Memcmp(sessions[i], sessionId, |sessionId|) == 0 {
          assert sessions[i][..|sessionId|] == sessionId[..|sessionId|] == sessionId;
          return i;
        }
        i := i + 1;
      }
      return NotFound;
    }

    /**
     * `openSession` (:72-85): appends SessionIdSize random bytes to the
     * caller's sessionId, one `long` of longSize bytes at a time, and adds
     * the result to the open sessions.
     */
    method OpenSession(sessionId: seq<byte>, random: seq<byte>, longSize: nat)
      returns (status: Status, newId: seq<byte>)
      requires Valid()
      requires 0 < longSize && SessionIdSize % longSize == 0
      requires |random| == SessionIdSize
      modifies this`sessions
      ensures Valid()
      ensures status == Ok
      ensures newId == sessionId + random && |newId| == |sessionId| + SessionIdSize
      ensures sessions == old(sessions) + [newId]
    {
      newId := sessionId;
      var words := SessionIdSize / longSize;
      var i := 0;
      while i < words
        invariant 0 <= i <= words
        invariant i * longSize <= SessionIdSize
        invariant newId == sessionId + random[..i * longSize]
      {
        newId := newId + random[i * longSize .. (i + 1) * longSize];
        i := i + 1;
      }
      assert random[..i * longSize] == random;
      sessions := sessions + [newId];
      status := Ok;
    }

    /** `closeSession` (:87-98): removes the first match, or fails with BadValue. */
    method CloseSession(sessionId: seq<byte>) returns (status: Status)
      requires Valid() && InBounds(sessions, sessionId)
      modifies this`sessions
      ensures Valid()
      ensures var i := FirstMatch(old(sessions), sessionId);
        if i == NotFound then status == BadValue && sessions == old(sessions)
        else status == Ok && sessions == RemoveAt(old(sessions), i)
    {
      var index := FindSession(sessionId);
      if index == NotFound {
        return BadValue;
      }
      sessions := RemoveAt(sessions, index);
      status := Ok;
    }

    /**
     * `getLicenseRequest` (:101-160).  On a known session the four inputs
     * are written first; `mock-request` and `mock-defaultUrl` are then read,
     * and a missing one fails with BadValue while keeping those writes (and
     * `request`, when `mock-request` was found).
     */
    method GetLicenseRequest(sessionId: seq<byte>, initData: seq<byte>, mimeType: string,
                             licenseType: int32, optionalParameters: seq<(string, string)>,
                             request0: seq<byte>, defaultUrl0: string)
      returns (status: Status, request: seq<byte>, defaultUrl: string)
      requires InBounds(sessions, sessionId)
      modifies this`strProps, this`byteProps
      ensures FirstMatch(sessions, sessionId) == NotFound ==>
        && status == BadValue
        && byteProps == old(byteProps) && strProps == old(strProps)
        && request == request0 && defaultUrl == defaultUrl0
      ensures FirstMatch(sessions, sessionId) != NotFound ==>
        && byteProps == old(byteProps)[MockInitData := initData]
        && strProps == old(strProps)[MockMimeType := mimeType]
                                    [MockLicenseType := Decimal(licenseType as int)]
                                    [MockOptParams := OptParams(optionalParameters)]
        && (status == Ok <==> MockRequest in byteProps && MockDefaultUrl in strProps)
        && request == (if MockRequest in byteProps then byteProps[MockRequest] else request0)
        && defaultUrl == (if status == Ok then strProps[MockDefaultUrl] else defaultUrl0)
    {
      request, defaultUrl := request0, defaultUrl0;
      var index := FindSession(sessionId);
      if index == NotFound {
        return BadValue, request, defaultUrl;
      }

      byteProps := byteProps[MockInitData := initData];
      strProps := strProps[MockMimeType := mimeType];
      var licenseTypeStr := Decimal(licenseType as int);
      strProps := strProps[MockLicenseType := licenseTypeStr];
      var params := BuildOptParams(optionalParameters);
      strProps := strProps[MockOptParams := params];

      if MockRequest !in byteProps {
        return BadValue, request, defaultUrl;
      }
      request := byteProps[MockRequest];
      if MockDefaultUrl !in strProps {
        return BadValue, request, defaultUrl;
      }
      defaultUrl := strProps[MockDefaultUrl];
      status := Ok;
    }

    /** `provideLicenseResponse` (:162-183): stores a nonempty response for a known session. */
    method ProvideLicenseResponse(sessionId: seq<byte>, response: seq<byte>) returns (status: Status)
      requires InBounds(sessions, sessionId)
      modifies this`byteProps
      ensures status == Ok <==> FirstMatch(sessions, sessionId) != NotFound && response != []
      ensures byteProps == if status == Ok then old(byteProps)[MockResponse := response] else old(byteProps)
    {
      var index := FindSession(sessionId);
      if index == NotFound {
        return BadValue;
      }
      if |response| == 0 {
        return BadValue;
      }
      byteProps := byteProps[MockResponse := response];
      status := Ok;
    }

    /** `removeLicense` (:185-197): only checks the session. */
    method RemoveLicense(sessionId: seq<byte>) returns (status: Status)
      requires InBounds(sessions, sessionId)
      ensures status == Ok <==> FirstMatch(sessions, sessionId) != NotFound
    {
      var index := FindSession(sessionId);
      if index == NotFound {
        return BadValue;
      }
      status := Ok;
    }

    /**
     * `queryLicenseStatus` (:199-214): on a known session adds the two fixed
     * entries to the caller's map, keeping what it already held.
     */
    method QueryLicenseStatus(sessionId: seq<byte>, infoMap0: map<string, string>)
      returns (status: Status, infoMap: map<string, string>)
      requires InBounds(sessions, sessionId)
      ensures status == Ok <==> FirstMatch(sessions, sessionId) != NotFound
      ensures status == BadValue ==> infoMap == infoMap0
      ensures status == Ok ==>
        && infoMap.Keys == infoMap0.Keys + {PurchaseDuration, LicenseDuration}
        && infoMap[PurchaseDuration] == "1000" && infoMap[LicenseDuration] == "100"
        && forall k :: k in infoMap0 && k != PurchaseDuration && k != LicenseDuration ==>
             infoMap[k] == infoMap0[k]
    {
      infoMap := infoMap0;
      var index := FindSession(sessionId);
      if index == NotFound {
        return BadValue, infoMap;
      }
      infoMap := infoMap[PurchaseDuration := "1000"];
      infoMap := infoMap[LicenseDuration := "100"];
      status := Ok;
    }

    /** `getProvisionRequest` (:216-242): reads `mock-request`, then `mock-defaultUrl`. */
    method GetProvisionRequest(request0: seq<byte>, defaultUrl0: string)
      returns (status: Status, request: seq<byte>, defaultUrl: string)
      ensures status == Ok <==> MockRequest in byteProps && MockDefaultUrl in strProps
      ensures request == if MockRequest in byteProps then byteProps[MockRequest] else request0
      ensures defaultUrl == if status == Ok then strProps[MockDefaultUrl] else defaultUrl0
    {
      request, defaultUrl := request0, defaultUrl0;
      if MockRequest !in byteProps {
        return BadValue, request, defaultUrl;
      }
      request := byteProps[MockRequest];
      if MockDefaultUrl !in strProps {
        return BadValue, request, defaultUrl;
      }
      defaultUrl := strProps[MockDefaultUrl];
      status := Ok;
    }

    /** `provideProvisionResponse` (:244-255): stores the response, whatever it is. */
    method ProvideProvisionResponse(response: seq<byte>) returns (status: Status)
      modifies this`byteProps
      ensures status == Ok
      ensures byteProps == old(byteProps)[MockResponse := response]
    {
      byteProps := byteProps[MockResponse := response];
      status := Ok;
    }

    /** `getSecureStops` (:257-272): appends the two fixed stops to the caller's list. */
    method GetSecureStops(secureStops0: seq<seq<byte>>)
      returns (status: Status, secureStops: seq<seq<byte>>)
      ensures status == Ok
      ensures |secureStops| == |secureStops0| + 2
      ensures secureStops[..|secureStops0|] == secureStops0
      ensures secureStops[|secureStops0|] == SecureStop1 && secureStops[|secureStops0| + 1] == SecureStop2
    {
      secureStops := secureStops0;
      var vec: seq<byte> := SecureStop1;
      secureStops := secureStops + [vec];
      vec := [];
      vec := vec + SecureStop2;
      secureStops := secureStops + [vec];
      status := Ok;
    }

    /** `releaseSecureStops` (:274-280): accepts anything and changes nothing. */
    method ReleaseSecureStops(ssRelease: seq<byte>) returns (status: Status)
      ensures status == Ok
    {
      status := Ok;
    }

    /** `getPropertyString` (:282-292). */
    method GetPropertyString(name: string, value0: string) returns (status: Status, value: string)
      ensures status == Ok <==> name in strProps
      ensures value == if name in strProps then strProps[name] else value0
    {
      if name !in strProps {
        return BadValue, value0;
      }
      value := strProps[name];
      status := Ok;
    }

    /** `getPropertyByteArray` (:294-305). */
    method GetPropertyByteArray(name: string, value0: seq<byte>) returns (status: Status, value: seq<byte>)
      ensures status == Ok <==> name in byteProps
      ensures value == if name in byteProps then byteProps[name] else value0
    {
      if name !in byteProps {
        return BadValue, value0;
      }
      value := byteProps[name];
      status := Ok;
    }

    /** `setPropertyString` (:307-315): insert or overwrite. */
    method SetPropertyString(name: string, value: string) returns (status: Status)
      modifies this`strProps
      ensures status == Ok
      ensures strProps == old(strProps)[name := value]
    {
      strProps := strProps[name := value];
      status := Ok;
    }

    /** `setPropertyByteArray` (:317-325): insert or overwrite. */
    method SetPropertyByteArray(name: string, value: seq<byte>) returns (status: Status)
      modifies this`byteProps
      ensures status == Ok
      ensures byteProps == old(byteProps)[name := value]
    {
      byteProps := byteProps[name := value];
      status := Ok;
    }
  }
}

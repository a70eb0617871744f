/**
 * Call sequences a test drives through one fresh plugin instance, proved
 * from the method contracts of MockDrm.MockDrmPlugin alone.
 */
module MockDrmScenarios {
  import opened DrmTypes
  import opened Format
  import opened MockDrm

  /** Open a session, close it, close it again: Ok, Ok, BadValue. */
  method OpenCloseTwice(random: seq<byte>, longSize: nat)
    returns (openStatus: Status, closeStatus: Status, secondClose: Status)
    requires |random| == SessionIdSize
    requires 0 < longSize && SessionIdSize % longSize == 0
    ensures openStatus == Ok && closeStatus == Ok && secondClose == BadValue
  {
    var p := new MockDrmPlugin();
    var id;
    openStatus, id := p.OpenSession([], random, longSize);
    p.ShortIdInBounds(id);
    OpenCloseRoundTrip([], id);
    closeStatus := p.CloseSession(id);
    secondClose := p.CloseSession(id);
  }

  /**
   * License request reflection: with `mock-request` and `mock-defaultUrl`
   * preset, the request succeeds, returns them, and the inputs read back
   * from the `mock-*` properties.
   */
  method LicenseRequestReflects(random: seq<byte>, initData: seq<byte>, mimeType: string,
                                licenseType: int32, params: seq<(string, string)>,
                                presetRequest: seq<byte>, presetUrl: string)
    returns (status: Status, request: seq<byte>, defaultUrl: string,
             initDataBack: seq<byte>, mimeTypeBack: string, licenseTypeBack: string,
             paramsBack: string)
    requires |random| == SessionIdSize
    ensures status == Ok && request == presetRequest && defaultUrl == presetUrl
    ensures initDataBack == initData && mimeTypeBack == mimeType
    ensures ParseDecimal(licenseTypeBack) == Some(licenseType as int)
    ensures paramsBack == OptParams(params)
    ensures Unambiguous(params) ==> ParseOptParams(paramsBack) == Some(params)
  {
    var p := new MockDrmPlugin();
    var s, id := p.OpenSession([], random, SessionIdSize);
    p.ShortIdInBounds(id);
    OpenedSessionFound([], id);
    s := p.SetPropertyByteArray(MockRequest, presetRequest);
    s := p.SetPropertyString(MockDefaultUrl, presetUrl);
    status, request, defaultUrl := p.GetLicenseRequest(id, initData, mimeType, licenseType, params, [], "");
    s, initDataBack := p.GetPropertyByteArray(MockInitData, []);
    s, mimeTypeBack := p.GetPropertyString(MockMimeType, "");
    s, licenseTypeBack := p.GetPropertyString(MockLicenseType, "");
    s, paramsBack := p.GetPropertyString(MockOptParams, "");
    DecimalRoundTrip(licenseType as int);
    if Unambiguous(params) {
      OptParamsRoundTrip(params);
    }
  }

  /** Without a preset `mock-request` the request fails, yet the inputs were recorded. */
  method MissingRequestStillRecords(random: seq<byte>, initData: seq<byte>, mimeType: string)
    returns (status: Status, mimeTypeBack: string, initDataBack: seq<byte>)
    requires |random| == SessionIdSize
    ensures status == BadValue && mimeTypeBack == mimeType && initDataBack == initData
  {
    var p := new MockDrmPlugin();
    var s, id := p.OpenSession([], random, SessionIdSize);
    p.ShortIdInBounds(id);
    OpenedSessionFound([], id);
    var request, defaultUrl;
    status, request, defaultUrl := p.GetLicenseRequest(id, initData, mimeType, 0, [], [], "");
    s, mimeTypeBack := p.GetPropertyString(MockMimeType, "");
    s, initDataBack := p.GetPropertyByteArray(MockInitData, []);
  }

  /** An empty license response is refused and never stored. */
  method EmptyResponseRefused(random: seq<byte>) returns (status: Status, readBack: Status)
    requires |random| == SessionIdSize
    ensures status == BadValue && readBack == BadValue
  {
    var p := new MockDrmPlugin();
    var s, id := p.OpenSession([], random, SessionIdSize);
    p.ShortIdInBounds(id);
    status := p.ProvideLicenseResponse(id, []);
    var value;
    readBack, value := p.GetPropertyByteArray(MockResponse, []);
  }

  /** A provisioning response is stored under `mock-response`. */
  method ProvisionResponseStored(response: seq<byte>) returns (status: Status, readBack: seq<byte>)
    ensures status == Ok && readBack == response
  {
    var p := new MockDrmPlugin();
    status := p.ProvideProvisionResponse(response);
    var s;
    s, readBack := p.GetPropertyByteArray(MockResponse, []);
  }

  /**
   * A string property reads back as written, a later write to the other
   * map under the same name leaves it alone, and the other map does not
   * gain the name from the string write.
   */
  method PropertyStoresSeparate(name: string, value: string, bytes: seq<byte>)
    returns (strStatus: Status, strBack: string, byteStatus: Status)
    ensures strStatus == Ok && strBack == value && byteStatus == BadValue
  {
    var p := new MockDrmPlugin();
    var s := p.SetPropertyString(name, value);
    var ignored;
    byteStatus, ignored := p.GetPropertyByteArray(name, []);
    s := p.SetPropertyByteArray(name + "-bytes", bytes);
    strStatus, strBack := p.GetPropertyString(name, "");
  }
}

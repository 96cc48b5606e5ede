/** The web client's responseErrorHandle: turns a failed API response into the error screen's
    label, button text and route, and logs the user out on an expired session. */
module WebResponse {
  import opened Types

  /** The part of an Axios error the handler reads: the status and the body, as rendered text. */
  datatype Response = Response(status: int, data: string)

  /** What the error screen shows. */
  datatype ErrorScreen = ErrorScreen(labelText: string, buttonText: string, navigateRoute: string)

  /** The 401 body the server sends when a survey needs a certification the user lacks. */
  const CERTIFICATION_REQUIRED_MESSAGE: string := "설문조사에 필요한 인증을 하지 않았습니다."
  const SESSION_EXPIRED_MESSAGE: string := "로그인이 만료 되었습니다."
  const SERVER_ERROR_MESSAGE: string := "서버에 문제가 생겼습니다."
  const GO_CERTIFY_BUTTON: string := "인증 하러 가기"
  const GO_LOGIN_BUTTON: string := "로그인 하러 가기"
  const BACK_TO_LIST_BUTTON: string := "설문 리스트로 돌아가기"
  const BACK_HOME_BUTTON: string := "홈화면으로 돌아가기"
  /** A template literal over a missing response renders as this text. */
  const UNDEFINED_TEXT: string := "undefined"

  /** The body text the label starts from. */
  function BodyText(response: Option<Response>): string
  {
    if response.Some? then response.value.data else UNDEFINED_TEXT
  }

  /** The response means an expired session: a 401 whose body is not the certification message. */
  predicate LogsOut(response: Option<Response>)
  {
    response.Some? && response.value.status == 401 && response.value.data != CERTIFICATION_REQUIRED_MESSAGE
  }

  /** The screen for a response. The server's body stays the label except for an expired session
      and a server error; every status but 400 leads somewhere. */
  function Screen(response: Option<Response>): (r: ErrorScreen)
    ensures r.labelText == (if LogsOut(response) then SESSION_EXPIRED_MESSAGE
                        else if response.Some? && response.value.status == 500 then SERVER_ERROR_MESSAGE
                        else BodyText(response))
    ensures r.navigateRoute == "" <==> response.Some? && response.value.status == 400
    ensures r.buttonText == "" <==> response.Some? && response.value.status in {400, 500}
    ensures LogsOut(response) ==> r.navigateRoute == "/login" && r.buttonText == GO_LOGIN_BUTTON
  {
    var status := if response.Some? then response.value.status else 0;
    var body := BodyText(response);
    if response.None? then ErrorScreen(body, BACK_HOME_BUTTON, "/")
    else if status == 400 then ErrorScreen(body, "", "")
    else if status == 401 then
      if body == CERTIFICATION_REQUIRED_MESSAGE then ErrorScreen(body, GO_CERTIFY_BUTTON, "/mypage/auth-list")
      else ErrorScreen(SESSION_EXPIRED_MESSAGE, GO_LOGIN_BUTTON, "/login")
    else if status == 403 then ErrorScreen(body, BACK_TO_LIST_BUTTON, "/survey")
    else if status == 500 then ErrorScreen(SERVER_ERROR_MESSAGE, "", "/")
    else ErrorScreen(body, BACK_HOME_BUTTON, "/")
  }

  /** The header slice of the client store: whether the user is shown as logged in. */
  class HeaderStore {
    var isLoggedIn: bool

    constructor (isLoggedIn: bool)
      ensures this.isLoggedIn == isLoggedIn
    {
      this.isLoggedIn := isLoggedIn;
    }

    /** dispatch(setLoggedIn(value)). */
    method SetLoggedIn(value: bool)
      modifies this
      ensures isLoggedIn == value
    {
      isLoggedIn := value;
    }
  }

  /** responseErrorHandle: the switch over the status reassigning the three texts; an expired
      session also dispatches the logout. The result is the triple [label, button, route]. */
  method ResponseErrorHandle(response: Option<Response>, store: HeaderStore) returns (result: seq<string>)
    modifies store
    ensures |result| == 3
    ensures result == [Screen(response).labelText, Screen(response).buttonText, Screen(response).navigateRoute]
    ensures store.isLoggedIn == if LogsOut(response) then false else old(store.isLoggedIn)
  {
    var labelText := BodyText(response);
    var buttonText := "";
    var navigateRoute := "";
    var status := if response.Some? then response.value.status else 0;
    if response.None? {
      buttonText := BACK_HOME_BUTTON;
      navigateRoute := "/";
    } else if status == 400 {
    } else if status == 401 {
      if labelText == CERTIFICATION_REQUIRED_MESSAGE {
        buttonText := GO_CERTIFY_BUTTON;
        navigateRoute := "/mypage/auth-list";
      } else {
        store.SetLoggedIn(false);
        labelText := SESSION_EXPIRED_MESSAGE;
        buttonText := GO_LOGIN_BUTTON;
        navigateRoute := "/login";
      }
    } else if status == 403 {
      buttonText := BACK_TO_LIST_BUTTON;
      navigateRoute := "/survey";
    } else if status == 500 {
      labelText := SERVER_ERROR_MESSAGE;
      navigateRoute := "/";
    } else {
      buttonText := BACK_HOME_BUTTON;
      navigateRoute := "/";
    }
    result := [labelText, buttonText, navigateRoute];
  }

  /** A missing certification is not a logout: the user is sent to the certification list with
      the server's message, and stays logged in. */
  lemma CertificationMissingKeepsSession()
    ensures var response := Some(Response(401, CERTIFICATION_REQUIRED_MESSAGE));
      !LogsOut(response)
      && Screen(response) == ErrorScreen(CERTIFICATION_REQUIRED_MESSAGE, GO_CERTIFY_BUTTON, "/mypage/auth-list")
  {
  }

  /** The logout happens for a 401 only, and for every 401 but the certification one. */
  lemma LogoutOnlyOnUnauthorized(response: Option<Response>)
    ensures LogsOut(response) ==> response.Some? && response.value.status == 401
    ensures response.Some? && response.value.status == 401 ==>
      (LogsOut(response) <==> Screen(response).navigateRoute == "/login")
  {
  }

  /** A forbidden request keeps the server's message and goes back to the survey list; any status
      the switch does not name, or no response at all, goes home. */
  lemma ForbiddenAndOtherStatuses(response: Option<Response>)
    ensures response.Some? && response.value.status == 403 ==>
      Screen(response) == ErrorScreen(response.value.data, BACK_TO_LIST_BUTTON, "/survey")
    ensures (response.None? || response.value.status !in {400, 401, 403, 500}) ==>
      Screen(response) == ErrorScreen(BodyText(response), BACK_HOME_BUTTON, "/")
  {
  }
}

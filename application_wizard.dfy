/**
 * The application wizard of the first Angular app: a step counter bounded
 * by `1` and `totalSteps`, and the choice of the portal its "back" button
 * returns to.
 */
module ApplicationWizard {
  import opened Wire
  import AdminGuard

  /** The admin dashboard and the applicant home page. */
  const AdminDashboardUrl: string := "http://localhost:4300"
  const ApplicantHomeUrl: string := "http://localhost:3000"

  class Wizard {
    var currentStep: int
    var totalSteps: int

    /** The step counter stays within `1 .. totalSteps`. */
    predicate Valid()
      reads this
    {
      1 <= currentStep <= totalSteps
    }

    /** The wizard opens on step 1 of 4. */
    constructor()
      ensures currentStep == 1 && totalSteps == 4
      ensures Valid()
    {
      currentStep := 1;
      totalSteps := 4;
    }

    /** `nextStep`: advances unless already on the last step. */
    method NextStep()
      modifies this`currentStep
      ensures old(currentStep) < totalSteps ==> currentStep == old(currentStep) + 1
      ensures old(currentStep) >= totalSteps ==> currentStep == old(currentStep)
      ensures totalSteps == old(totalSteps)
      ensures old(Valid()) ==> Valid()
    {
      if currentStep < totalSteps {
        currentStep := currentStep + 1;
      }
    }

    /** `prevStep`: goes back unless already on step 1. */
    method PrevStep()
      modifies this`currentStep
      ensures old(currentStep) > 1 ==> currentStep == old(currentStep) - 1
      ensures old(currentStep) <= 1 ==> currentStep == old(currentStep)
      ensures totalSteps == old(totalSteps)
      ensures old(Valid()) ==> Valid()
    {
      if currentStep > 1 {
        currentStep := currentStep - 1;
      }
    }
  }

  /**
   * The URL `goBack` navigates to: the admin dashboard for a session whose
   * `userType` is `admin`, the applicant home page otherwise (a `null`
   * session included).
   */
  function BackTarget(session: Option<SessionView>): (url: string)
    ensures url == AdminDashboardUrl <==> IsAdminSession(session)
    ensures url == ApplicantHomeUrl <==> !IsAdminSession(session)
  {
    if IsAdminSession(session) then AdminDashboardUrl else ApplicantHomeUrl
  }

  /**
   * "Back" leads to the admin dashboard for exactly the sessions the
   * dashboard's route guard admits.
   */
  lemma BackTargetAgreesWithGuard(session: Option<SessionView>)
    ensures BackTarget(session) == AdminDashboardUrl <==> AdminGuard.Decide(session).allow
  {
  }
}

/**
 * One configured CI server. Its defining file is not part of this model; it
 * is a plain record whose constructor takes `(base_url, api_token, username)`
 * in that order.
 */
module JenkinsModel {

  datatype Jenkins = Jenkins(baseUrl: string, apiToken: string, username: string)
}

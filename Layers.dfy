/**
 * The EspoCRM source layers. Every rule applies only to files whose path
 * contains its layer's directory, tested as plain substring containment.
 */
module Layers {
  const BackendLayer := "/src/backend/"
  const HooksLayer := "/src/backend/Hooks/"
  const ServicesLayer := "/src/backend/Services/"
  const EntitiesLayer := "/src/backend/Entities/"
}
